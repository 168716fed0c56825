/** longest_match: the search along a hash chain for the longest earlier string that equals the current one. */
module Matcher {
  import opened Bits
  import opened Hash
  import opened Window

  const MAX_CHAIN_LENGTH := 4096
  const GOOD_MATCH := 32
  const NICE_MATCH := 258

  /** The strings at p and q agree on n bytes. */
  ghost predicate Agree(w: seq<byte>, p: nat, q: nat, n: nat)
  {
    p + n <= |w| && q + n <= |w| && w[p..p + n] == w[q..q + n]
  }

  lemma {:induction false} AgreeMore(w: seq<byte>, p: nat, q: nat, n: nat)
    requires Agree(w, p, q, n) && p + n < |w| && q + n < |w|
    ensures w[p + n] == w[q + n] ==> Agree(w, p, q, n + 1)
  {
    assert w[p..p + n + 1] == w[p..p + n] + [w[p + n]];
    assert w[q..q + n + 1] == w[q..q + n] + [w[q + n]];
  }

  lemma {:induction false} AgreeLess(w: seq<byte>, p: nat, q: nat, n: nat, m: nat)
    requires Agree(w, p, q, n) && m <= n
    ensures Agree(w, p, q, m)
  {
    assert w[p..p + m] == w[p..p + n][..m];
    assert w[q..q + m] == w[q..q + n][..m];
  }

  lemma {:induction false} AgreeShort(w: seq<byte>, p: nat, q: nat)
    requires Agree(w, p, q, 3)
    ensures p + 3 <= |w| && q + 3 <= |w|
  {
  }

  /** The comparison of longest_match from the fourth byte on, eight bytes between two checks of the limit: the number
      of equal bytes, at most MAX_MATCH. The first three are equal already. */
  method CompareTail(window: array<byte>, cur: nat, start: nat) returns (len: nat)
    requires cur < start && start + MAX_MATCH < window.Length && Agree(window[..], cur, start, 3)
    ensures 3 <= len <= MAX_MATCH && Agree(window[..], cur, start, len)
    ensures len == MAX_MATCH || window[cur + len] != window[start + len]
  {
    hide Agree;
    ghost var w := window[..];
    AgreeShort(w, cur, start);
    var scan: nat, match': nat, strend := start + 2, cur + 2, start + MAX_MATCH;
    var go := true;
    while go
      invariant scan - start == match' - cur && 2 <= scan - start <= MAX_MATCH
      invariant go ==> (scan - start - 2) % 8 == 0 && scan < strend && Agree(w, cur, start, scan - start + 1)
      invariant !go ==> scan > start + 2 && Agree(w, cur, start, scan - start)
      invariant !go ==> scan == strend || window[scan] != window[match']
      decreases go, strend - scan
    {
      var k := 0;
      ghost var from := scan;
      while k < 8 && go
        invariant 0 <= k <= 8 && scan == from + k && scan - start == match' - cur && scan <= strend
        invariant go ==> Agree(w, cur, start, scan - start + 1)
        invariant !go ==> k > 0 && Agree(w, cur, start, scan - start) && window[scan] != window[match']
      {
        AgreeMore(w, cur, start, scan - start + 1);
        scan := scan + 1;
        match' := match' + 1;
        if window[scan] != window[match'] { go := false; }
        k := k + 1;
      }
      if go && scan >= strend {
        AgreeLess(w, cur, start, scan - start + 1, scan - start);
        go := false;
      }
    }
    len := MAX_MATCH - (strend - scan);
  }

  /** A chain entry that longest_match may follow: an earlier position within reach whose
      string has the same hash key. */
  ghost predicate Candidate(w: seq<byte>, cur: nat, start: nat)
  {
    0 < cur < start && start - cur <= MAX_DIST && start + 2 < |w| && HashAt(w, cur) == HashAt(w, start)
  }

  /** Every link from a candidate that is still above the limit is a candidate again. */
  lemma {:induction false} NextCandidate(w: seq<byte>, prev: seq<nat>, cur: nat, start: nat, next: nat, limit: nat)
    requires Chains(w, prev, start + 1) && Candidate(w, cur, start)
    requires next == prev[cur % WSIZE] && limit == if start > MAX_DIST then start - MAX_DIST else 0
    ensures next > limit ==> Candidate(w, next, start)
  {
    hide Hash3;
    assert SlotOk(w, prev, cur);
  }

  /** The hash key vouches for the third byte. */
  lemma {:induction false} ThreeAgree(w: seq<byte>, cur: nat, start: nat)
    requires Candidate(w, cur, start) && w[cur] == w[start] && w[cur + 1] == w[start + 1]
    ensures Agree(w, cur, start, 3)
  {
    hide Hash3;
    ThirdByte(w[cur], w[cur + 1], w[cur + 2], w[start + 2]);
  }

  /** The chain of earlier strings from cur on: at most n of them, as long as the links stay above limit. */
  function Chain(prev: seq<nat>, cur: nat, limit: nat, n: nat): (cs: seq<nat>)
    requires |prev| >= WSIZE
    decreases n
  {
    if n == 0 then []
    else
      var next := prev[cur % WSIZE];
      [cur] + if next > limit then Chain(prev, next, limit, n - 1) else []
  }

  /** No string of the chain agrees with the one at start on more than len bytes. */
  ghost predicate NoneLonger(w: seq<byte>, cs: seq<nat>, start: nat, len: nat) {
    forall k :: 0 <= k < |cs| ==> !Agree(w, cs[k], start, len + 1)
  }

  /** The first string of the chain that agrees on len bytes is the one at p. */
  ghost predicate FirstOf(w: seq<byte>, cs: seq<nat>, start: nat, len: nat, p: int) {
    exists k :: 0 <= k < |cs| && cs[k] == p && Agree(w, cs[k], start, len)
             && forall j :: 0 <= j < k ==> !Agree(w, cs[j], start, len)
  }

  lemma {:induction false} ChainNext(prev: seq<nat>, cur: nat, limit: nat, n: nat, seen: seq<nat>)
    requires |prev| >= WSIZE && n > 0
    ensures var next := prev[cur % WSIZE];
            seen + Chain(prev, cur, limit, n)
            == if next > limit then seen + [cur] + Chain(prev, next, limit, n - 1) else seen + [cur]
    ensures Chain(prev, cur, limit, 0) == []
  {
  }

  /** One more string of the chain, which agrees on at most len bytes. */
  lemma {:induction false} NotLonger(w: seq<byte>, seen: seq<nat>, cur: nat, start: nat, len: nat)
    requires NoneLonger(w, seen, start, len) && !Agree(w, cur, start, len + 1)
    ensures NoneLonger(w, seen + [cur], start, len)
  {
    hide Agree;
  }

  /** One more string of the chain, which agrees on more bytes than all before. */
  lemma {:induction false} NowLonger(w: seq<byte>, seen: seq<nat>, cur: nat, start: nat, less: nat, len: nat)
    requires NoneLonger(w, seen, start, less) && less < len && Agree(w, cur, start, len)
    ensures FirstOf(w, seen + [cur], start, len, cur)
    ensures !Agree(w, cur, start, len + 1) ==> NoneLonger(w, seen + [cur], start, len)
  {
    var cs := seen + [cur];
    forall k | 0 <= k < |seen| ensures !Agree(w, cs[k], start, len) && !Agree(w, cs[k], start, len + 1) {
      if Agree(w, cs[k], start, len) { AgreeLess(w, cs[k], start, len, less + 1); }
      if Agree(w, cs[k], start, len + 1) { AgreeLess(w, cs[k], start, len + 1, less + 1); }
    }
    assert cs[|seen|] == cur;
  }

  lemma {:induction false} FirstStays(w: seq<byte>, seen: seq<nat>, more: seq<nat>, start: nat, len: nat, p: int)
    requires FirstOf(w, seen, start, len, p)
    ensures FirstOf(w, seen + more, start, len, p)
  {
    hide Agree;
    var k :| 0 <= k < |seen| && seen[k] == p && Agree(w, seen[k], start, len)
          && forall j :: 0 <= j < k ==> !Agree(w, seen[j], start, len);
    var cs := seen + more;
    assert cs[k] == p && forall j :: 0 <= j < k ==> cs[j] == seen[j];
  }

  lemma {:induction false} Differs(w: seq<byte>, p: nat, q: nat, n: nat, i: nat)
    requires i < n && p + i < |w| && q + i < |w| && w[p + i] != w[q + i]
    ensures !Agree(w, p, q, n)
  {
    if Agree(w, p, q, n) { AgreeAt(w, p, q, n, i); }
  }

  lemma {:induction false} AgreeAt(w: seq<byte>, p: nat, q: nat, n: nat, i: nat)
    requires Agree(w, p, q, n) && i < n
    ensures w[p + i] == w[q + i]
  {
    assert w[p..p + n][i] == w[q..q + n][i];
  }

  /** How many strings of the chain are looked at. */
  function ChainLimit(prevLength: nat): nat {
    if prevLength >= GOOD_MATCH then MAX_CHAIN_LENGTH / 4 else MAX_CHAIN_LENGTH
  }

  /** What is known after the strings of cs: the best of them, if one is longer than prevLength. */
  ghost predicate Best(w: seq<byte>, cs: seq<nat>, start: nat, prevLength: nat, bestLen: nat, p: int) {
    && prevLength <= bestLen <= MAX_MATCH
    && (bestLen > prevLength ==>
          && 3 <= bestLen && 0 < p < start && start - p <= MAX_DIST && Agree(w, p, start, bestLen)
          && FirstOf(w, cs, start, bestLen, p))
    && (bestLen < MAX_MATCH ==> NoneLonger(w, cs, start, bestLen))
  }

  /** Compares one string of the chain; scanEnd1 and scanEnd are the bytes at the end of what is the best so far. */
  method Compare(win: SlidingWindow, cur: nat, bestLen: nat, scanEnd1: byte, scanEnd: byte, ghost seen: seq<nat>)
    returns (len: nat)
    requires win.Sized() && win.strstart < WINDOW_SIZE && 1 <= win.prevLength
    requires Candidate(win.window[..], cur, win.strstart)
    requires Best(win.window[..], seen, win.strstart, win.prevLength, bestLen, win.matchStart) && bestLen < MAX_MATCH
    requires 1 <= bestLen && scanEnd1 == win.window[win.strstart + bestLen - 1]
    requires scanEnd == win.window[win.strstart + bestLen]
    modifies win`matchStart
    ensures bestLen <= len && Best(win.window[..], seen + [cur], win.strstart, win.prevLength, len, win.matchStart)
  {
    hide *;
    ghost var w := win.window[..];
    var window, scan := win.window, win.strstart;
    SizedFacts(win);
    CandidateRange(w, cur, scan);
    len := bestLen;
    if window[cur + bestLen] != scanEnd || window[cur + bestLen - 1] != scanEnd1
       || window[cur] != window[scan] || window[cur + 1] != window[scan + 1]
    {
      Skipped(w, cur, scan, bestLen);
      NoBetter(w, seen, cur, scan, win.prevLength, bestLen, win.matchStart);
    } else {
      ThreeAgree(w, cur, scan);
      len := CompareTail(window, cur, scan);
      if len < MAX_MATCH { Differs(w, cur, scan, len + 1, len); }
      if len > bestLen {
        NowBest(w, seen, cur, scan, win.prevLength, bestLen, win.matchStart, len);
        win.matchStart := cur;
      } else {
        Differs(w, cur, scan, bestLen + 1, len);
        NoBetter(w, seen, cur, scan, win.prevLength, bestLen, win.matchStart);
        len := bestLen;
      }
    }
  }

  lemma {:induction false} SizedFacts(win: SlidingWindow)
    requires win.Sized()
    ensures win.window.Length == WINDOW_SIZE + MAX_MATCH && win.prev.Length >= WSIZE
    ensures MAX_MATCH == NICE_MATCH == 258 && 0 < WSIZE
  {
  }

  lemma {:induction false} NoBetter(w: seq<byte>, seen: seq<nat>, cur: nat, start: nat, prevLength: nat, bestLen: nat,
      p: int)
    requires Best(w, seen, start, prevLength, bestLen, p) && bestLen < MAX_MATCH && !Agree(w, cur, start, bestLen + 1)
    ensures Best(w, seen + [cur], start, prevLength, bestLen, p)
  {
    hide Agree, NoneLonger, FirstOf;
    NotLonger(w, seen, cur, start, bestLen);
    if bestLen > prevLength { FirstStays(w, seen, [cur], start, bestLen, p); }
  }

  lemma {:induction false} NowBest(w: seq<byte>, seen: seq<nat>, cur: nat, start: nat, prevLength: nat, less: nat,
      p: int, len: nat)
    requires Best(w, seen, start, prevLength, less, p) && less < MAX_MATCH && less < len && 3 <= len <= MAX_MATCH
    requires 0 < cur < start && start - cur <= MAX_DIST && Agree(w, cur, start, len)
    requires len < MAX_MATCH ==> !Agree(w, cur, start, len + 1)
    ensures Best(w, seen + [cur], start, prevLength, len, cur)
  {
    hide Agree, NoneLonger, FirstOf;
    NowLonger(w, seen, cur, start, less, len);
  }

  /** A match of the greatest length stays the first one. */
  lemma {:induction false} LongestStays(w: seq<byte>, seen: seq<nat>, more: seq<nat>, start: nat, prevLength: nat,
      p: int)
    requires Best(w, seen, start, prevLength, MAX_MATCH, p)
    ensures Best(w, seen + more, start, prevLength, MAX_MATCH, p)
  {
    hide Agree, NoneLonger, FirstOf;
    if MAX_MATCH > prevLength { FirstStays(w, seen, more, start, MAX_MATCH, p); }
  }

  lemma {:induction false} NoneBetter(w: seq<byte>, start: nat, prevLength: nat, p: int)
    requires prevLength <= MAX_MATCH
    ensures Best(w, [], start, prevLength, prevLength, p)
  {
    hide Agree, FirstOf;
  }

  lemma {:induction false} BestFacts(w: seq<byte>, cs: seq<nat>, start: nat, prevLength: nat, bestLen: nat, p: int)
    requires Best(w, cs, start, prevLength, bestLen, p)
    ensures prevLength <= bestLen <= MAX_MATCH
    ensures bestLen > prevLength ==>
              3 <= bestLen && 0 < p < start && start - p <= MAX_DIST && Agree(w, p, start, bestLen)
                && FirstOf(w, cs, start, bestLen, p)
    ensures bestLen < MAX_MATCH ==> NoneLonger(w, cs, start, bestLen)
  {
    hide Agree, NoneLonger, FirstOf;
  }

  /** Looks for a longer match than prevLength; if there is one, matchStart is where it starts: at the nearest of the
      longest matches in the chain. The search ends early only at a match of the greatest length. */
  method LongestMatch(win: SlidingWindow, curMatch: nat) returns (bestLen: nat)
    requires win.Sized() && win.strstart < WINDOW_SIZE && 1 <= win.prevLength < MAX_MATCH
    requires Chains(win.window[..], win.prev[..], win.strstart + 1) && Candidate(win.window[..], curMatch, win.strstart)
    modifies win`matchStart
    ensures win.prevLength <= bestLen <= MAX_MATCH
    ensures bestLen > win.prevLength ==>
              && 3 <= bestLen && 0 < win.matchStart < win.strstart && win.strstart - win.matchStart <= MAX_DIST
              && Agree(win.window[..], win.matchStart, win.strstart, bestLen)
    ensures win.prev.Length >= WSIZE
    ensures var cs := Chain(win.prev[..], curMatch, Limit(win.strstart), ChainLimit(win.prevLength));
            && (bestLen > win.prevLength ==> FirstOf(win.window[..], cs, win.strstart, bestLen, win.matchStart))
            && (bestLen < MAX_MATCH ==> NoneLonger(win.window[..], cs, win.strstart, bestLen))
            && Best(win.window[..], cs, win.strstart, win.prevLength, bestLen, win.matchStart)
  {
    hide Chains, Candidate, Hash3, Agree, NoneLonger, FirstOf, Chain, Best, win.Sized;
    SizedFacts(win);
    ghost var w := win.window[..];
    var window, scan := win.window, win.strstart;
    var chainLength: nat := MAX_CHAIN_LENGTH;
    bestLen := win.prevLength;
    var limit: nat := if scan > MAX_DIST then scan - MAX_DIST else 0;
    var scanEnd1, scanEnd := window[scan + bestLen - 1], window[scan + bestLen];
    if win.prevLength >= GOOD_MATCH { chainLength := chainLength / 4; }
    var cur: nat := curMatch;
    ghost var cs, seen := Chain(win.prev[..], curMatch, limit, chainLength), [];
    NoneBetter(w, scan, bestLen, win.matchStart);
    assert seen + cs == cs;
    while true
      invariant Candidate(w, cur, scan) && chainLength > 0 && win.prevLength <= bestLen < MAX_MATCH
      invariant scanEnd1 == window[scan + bestLen - 1] && scanEnd == window[scan + bestLen]
      invariant cs == seen + Chain(win.prev[..], cur, limit, chainLength)
      invariant Best(w, seen, scan, win.prevLength, bestLen, win.matchStart)
      decreases chainLength
    {
      ChainNext(win.prev[..], cur, limit, chainLength, seen);
      var len := Compare(win, cur, bestLen, scanEnd1, scanEnd, seen);
      BestFacts(w, seen + [cur], scan, win.prevLength, len, win.matchStart);
      seen := seen + [cur];
      if len > bestLen {
        bestLen := len;
        if len >= NICE_MATCH {
          LongestStays(w, seen, cs[|seen|..], scan, win.prevLength, win.matchStart);
          assert cs == seen + cs[|seen|..];
          break;
        }
        scanEnd1, scanEnd := window[scan + bestLen - 1], window[scan + bestLen];
      }
      var next := win.prev[cur % WSIZE];
      NextCandidate(w, win.prev[..], cur, scan, next, limit);
      cur := next;
      if cur <= limit { break; }
      chainLength := chainLength - 1;
      if chainLength == 0 {
        ChainNext(win.prev[..], cur, limit, 1, seen);
        assert cs == seen;
        break;
      }
    }
    BestFacts(w, cs, scan, win.prevLength, bestLen, win.matchStart);
  }

  /** Strings at or below the limit are too far away, and so is the one at 0. */
  function Limit(start: nat): nat {
    if start > MAX_DIST then start - MAX_DIST else 0
  }

  /** What the quick test at both ends rules out. */
  lemma {:induction false} Skipped(w: seq<byte>, cur: nat, start: nat, len: nat)
    requires cur < start && start + len < |w| && 1 <= len
    requires w[cur + len] != w[start + len] || w[cur + len - 1] != w[start + len - 1]
            || w[cur] != w[start] || w[cur + 1] != w[start + 1]
    ensures !Agree(w, cur, start, len + 1)
  {
    hide Agree;
    if w[cur + len] != w[start + len] {
      Differs(w, cur, start, len + 1, len);
    } else if w[cur + len - 1] != w[start + len - 1] {
      Differs(w, cur, start, len + 1, len - 1);
    } else if w[cur] != w[start] {
      Differs(w, cur, start, len + 1, 0);
    } else {
      Differs(w, cur, start, len + 1, 1);
    }
  }

  lemma {:induction false} CandidateRange(w: seq<byte>, cur: nat, start: nat)
    requires Candidate(w, cur, start)
    ensures 0 < cur < start && start - cur <= MAX_DIST
  {
  }

  // ----- the whole window

  /** Every earlier string within reach that has the same hash key is in the chain, unless there are more than n. */
  lemma {:induction false} ChainFinds(w: seq<byte>, prev: seq<nat>, cur: nat, start: nat, n: nat, r: nat)
    requires Chains(w, prev, start + 1) && Candidate(w, cur, start) && |prev| >= WSIZE
    requires Limit(start) < r <= cur && SameKey(w, r, start)
    ensures var cs := Chain(prev, cur, Limit(start), n); r in cs || |cs| == n
    decreases n
  {
    hide *;
    ChainUnfold(prev, cur, Limit(start), n);
    if n > 0 && r != cur {
      var next := prev[cur % WSIZE];
      NextLatest(w, prev, cur, start, r);
      NextAgain(w, prev, cur, start, next);
      ChainFinds(w, prev, next, start, n - 1, r);
    }
  }

  /** The strings at r and start have the same hash key. */
  ghost predicate SameKey(w: seq<byte>, r: nat, start: nat) {
    r + 2 < |w| && start + 2 < |w| && HashAt(w, r) == HashAt(w, start)
  }

  lemma {:induction false} ChainUnfold(prev: seq<nat>, cur: nat, limit: nat, n: nat)
    requires |prev| >= WSIZE
    ensures WSIZE > 0 && |Chain(prev, cur, limit, 0)| == 0
    ensures n > 0 ==>
              var next, cs := prev[cur % WSIZE], Chain(prev, cur, limit, n);
              && cur in cs
              && (next > limit ==>
                    var rest := Chain(prev, next, limit, n - 1);
                    |cs| == 1 + |rest| && forall x :: x in rest ==> x in cs)
  {
  }

  lemma {:induction false} NextAgain(w: seq<byte>, prev: seq<nat>, cur: nat, start: nat, next: nat)
    requires Chains(w, prev, start + 1) && Candidate(w, cur, start) && |prev| >= WSIZE && next == prev[cur % WSIZE]
    ensures next > Limit(start) ==> Candidate(w, next, start)
  {
    hide Chains, Candidate, Hash3;
    NextCandidate(w, prev, cur, start, next, Limit(start));
  }

  lemma {:induction false} ChainsSize(w: seq<byte>, prev: seq<nat>, start: nat)
    requires Chains(w, prev, start + 1)
    ensures |prev| >= WSIZE
  {
  }

  lemma {:induction false} NextLatest(w: seq<byte>, prev: seq<nat>, cur: nat, start: nat, r: nat)
    requires Chains(w, prev, start + 1) && Candidate(w, cur, start) && Limit(start) < r < cur && |prev| >= WSIZE
    requires SameKey(w, r, start)
    ensures r <= prev[cur % WSIZE]
  {
    hide Hash3;
    assert SlotOk(w, prev, cur);
  }

  /** If the chain was not too long to be searched, no earlier string within reach agrees on more bytes than the best,
      whether it has been entered into a chain or not looked at. */
  lemma {:induction false} BestOfAll(w: seq<byte>, prev: seq<nat>, head: nat, start: nat, n: nat, prevLength: nat,
      bestLen: nat, p: int, r: nat)
    requires Chains(w, prev, start + 1) && Candidate(w, head, start) && Link(w, head, start, HashAt(w, start))
    requires var cs := Chain(prev, head, Limit(start), n);
             |cs| < n && Best(w, cs, start, prevLength, bestLen, p)
    requires 2 <= prevLength && bestLen < MAX_MATCH && Limit(start) < r < start
    ensures !Agree(w, r, start, bestLen + 1)
  {
    hide Chains, Hash3, Agree, FirstOf, Chain;
    if Agree(w, r, start, bestLen + 1) {
      SameHash(w, r, start, bestLen + 1);
      LatestBefore(w, head, start, r);
      ChainsSize(w, prev, start);
      ChainFinds(w, prev, head, start, n, r);
    }
  }

  lemma {:induction false} SameHash(w: seq<byte>, r: nat, start: nat, n: nat)
    requires Agree(w, r, start, n) && 3 <= n
    ensures SameKey(w, r, start)
  {
    hide Hash3, Agree;
    AgreeLess(w, r, start, n, 3);
    AgreeShort(w, r, start);
    AgreeAt(w, r, start, n, 0);
    AgreeAt(w, r, start, n, 1);
    AgreeAt(w, r, start, n, 2);
  }

  lemma {:induction false} LatestBefore(w: seq<byte>, head: nat, start: nat, r: nat)
    requires start + 2 < |w| && Link(w, head, start, HashAt(w, start)) && r < start && SameKey(w, r, start)
    ensures r <= head
  {
    hide Hash3;
  }

  /** If the chain is empty or begins out of reach, no earlier string within reach agrees on three bytes. */
  lemma {:induction false} NoneNear(w: seq<byte>, head: nat, start: nat, r: nat)
    requires start + 2 < |w| && Link(w, head, start, HashAt(w, start)) && (head == 0 || start - head > MAX_DIST)
    requires 0 < r < start && start - r <= MAX_DIST
    ensures !Agree(w, r, start, 3)
  {
    hide Hash3, Agree;
    if Agree(w, r, start, 3) {
      SameHash(w, r, start, 3);
      LatestBefore(w, head, start, r);
    }
  }
}
