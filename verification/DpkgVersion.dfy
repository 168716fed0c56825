/** The order of Debian version numbers: order, version_compare_part, version_compare and test_version of dpkg.c. */
module DpkgVersion {

  /** The characters of a C string; the terminating zero is not part of it. */
  type Char = c: int | 0 < c < 256 witness 1
  type Text = seq<Char>

  predicate IsDigit(c: int) {
    48 <= c <= 57
  }

  predicate IsAlpha(c: int) {
    65 <= c <= 90 || 97 <= c <= 122
  }

  /** The character at index i, and the terminating zero behind the last one. */
  function At(s: Text, i: nat): int {
    if i < |s| then s[i] else 0
  }

  /** order: a tilde sorts before the end of the string, letters before everything else. */
  function Order(c: int): int {
    if c == 126 then -1 else if c == 0 || IsDigit(c) then 0 else if IsAlpha(c) then c else c + 256
  }

  function Sign(x: int): int {
    if x < 0 then -1 else if x > 0 then 1 else 0
  }

  // ----- the sort key of a part, section 5.6.12 of the Debian Policy Manual

  /** The number that a run of digits denotes. */
  function Number(ds: Text): int {
    if ds == [] then 0 else 10 * Number(ds[..|ds| - 1]) + (ds[|ds| - 1] as int - 48)
  }

  /** How many digits a string starts with. */
  function Digits(s: Text): (n: nat)
    ensures n <= |s| && (forall i :: 0 <= i < n ==> IsDigit(s[i])) && (n < |s| ==> !IsDigit(s[n]))
  {
    if s != [] && IsDigit(s[0]) then 1 + Digits(s[1..]) else 0
  }

  /** The key of a part: the order values up to the next digit, a zero, the number, and so on in turn. */
  function Key(s: Text): seq<int>
    decreases |s|, 1
  {
    if s == [] then [] else Rest(s)
  }

  /** The key from inside a stretch of other characters, or right behind it. */
  function Rest(s: Text): seq<int>
    decreases |s|, 0
  {
    if s != [] && !IsDigit(s[0]) then [Order(s[0])] + Rest(s[1..])
    else [0, Number(s[..Digits(s)])] + if Digits(s) == 0 then [] else Key(s[Digits(s)..])
  }

  function Head(k: seq<int>): int {
    if k == [] then 0 else k[0]
  }

  function Tail(k: seq<int>): seq<int> {
    if k == [] then [] else k[1..]
  }

  /** The lexicographic order, with zeros behind the end. */
  function Lex(k: seq<int>, l: seq<int>): (r: int)
    ensures r == -1 || r == 0 || r == 1
    decreases |k| + |l|
  {
    if k == [] && l == [] then 0
    else if Head(k) != Head(l) then Sign(Head(k) - Head(l))
    else Lex(Tail(k), Tail(l))
  }

  lemma {:induction false} LexOpposite(k: seq<int>, l: seq<int>)
    ensures Lex(k, l) == -Lex(l, k)
    decreases |k| + |l|
  {
    if k != [] || l != [] { LexOpposite(Tail(k), Tail(l)); }
  }

  lemma {:induction false} LexTransitive(k: seq<int>, l: seq<int>, m: seq<int>)
    requires Lex(k, l) <= 0 && Lex(l, m) <= 0
    ensures Lex(k, m) <= 0
    ensures Lex(k, m) == 0 ==> Lex(k, l) == 0 && Lex(l, m) == 0
    decreases |k| + |l| + |m|
  {
    if (k != [] || l != [] || m != []) && Head(k) == Head(l) == Head(m) {
      LexTransitive(Tail(k), Tail(l), Tail(m));
    }
  }

  lemma {:induction false} LexSelf(k: seq<int>)
    ensures Lex(k, k) == 0
  {
    if k != [] { LexSelf(Tail(k)); }
  }

  // ----- the comparison

  lemma {:induction false} LexNext(a: int, k: seq<int>, b: int, l: seq<int>)
    ensures Lex([a] + k, [b] + l) == if a != b then Sign(a - b) else Lex(k, l)
  {
    assert ([a] + k)[1..] == k && ([b] + l)[1..] == l;
  }

  /** An empty part has the same key as one that ends right away. */
  lemma {:induction false} LexEmpty(k: seq<int>)
    ensures Lex([], k) == Lex([0, 0], k) && Lex(k, []) == Lex(k, [0, 0])
  {
    assert Tail([0, 0]) == [0] && Tail([0]) == [];
    assert Lex([0], Tail(k)) == Lex([], Tail(k)) by { assert Lex(Tail([0]), Tail(Tail(k))) == Lex([], Tail(Tail(k))); }
    assert Lex(Tail(k), [0]) == Lex(Tail(k), []) by { assert Lex(Tail(Tail(k)), Tail([0])) == Lex(Tail(Tail(k)), []); }
  }

  lemma {:induction false} KeyIsRest(s: Text, r: Text)
    ensures Lex(Key(s), Key(r)) == Lex(Rest(s), Rest(r))
  {
    EmptyRest();
    if s == [] { LexEmpty(Key(r)); }
    if r == [] { LexEmpty(Rest(s)); }
  }

  lemma {:induction false} EmptyRest()
    ensures Rest([]) == [0, 0]
  {
    assert Number([]) == 0;
  }

  /** The order values tell all characters apart except digits and the end. */
  lemma {:induction false} OrderInjective(c: int, d: int)
    requires 0 <= c < 256 && 0 <= d < 256 && Order(c) == Order(d)
    ensures c == d || ((c == 0 || IsDigit(c)) && (d == 0 || IsDigit(d)))
  {
  }

  /** One character outside of numbers. */
  lemma {:induction false} RestStep(s: Text, i: nat, r: Text, j: nat)
    requires i <= |s| && j <= |r|
    requires (i < |s| && !IsDigit(s[i])) || (j < |r| && !IsDigit(r[j]))
    ensures var vc, rc := Order(At(s, i)), Order(At(r, j));
            if vc != rc then Lex(Rest(s[i..]), Rest(r[j..])) == Sign(vc - rc)
            else i < |s| && j < |r| && Lex(Rest(s[i..]), Rest(r[j..])) == Lex(Rest(s[i + 1..]), Rest(r[j + 1..]))
  {
    hide Lex;
    var vc, rc := Order(At(s, i)), Order(At(r, j));
    RestHead(s, i);
    RestHead(r, j);
    if vc == rc { OrderInjective(At(s, i), At(r, j)); }
    LexNext(vc, Rest(s[i..])[1..], rc, Rest(r[j..])[1..]);
  }

  lemma {:induction false} RestHead(s: Text, i: nat)
    requires i <= |s|
    ensures Rest(s[i..]) == [Order(At(s, i))] + Rest(s[i..])[1..]
    ensures i < |s| && !IsDigit(s[i]) ==> Rest(s[i..])[1..] == Rest(s[i + 1..])
  {
    if i < |s| { assert s[i..][1..] == s[i + 1..]; }
  }

  lemma {:induction false} RestParts(s: Text)
    requires s == [] || IsDigit(s[0])
    ensures Rest(s) == [0] + ([Number(s[..Digits(s)])] + Key(s[Digits(s)..]))
  {
    hide Number;
    if s == [] { assert s[..0] == s[0..] == [] && Key([]) == []; }
  }

  /** At a number, or the end, on both sides. */
  lemma {:induction false} RestNumber(s: Text, r: Text)
    requires (s == [] || IsDigit(s[0])) && (r == [] || IsDigit(r[0]))
    ensures var m, n := Number(s[..Digits(s)]), Number(r[..Digits(r)]);
            Lex(Rest(s), Rest(r)) == if m != n then Sign(m - n) else Lex(Key(s[Digits(s)..]), Key(r[Digits(r)..]))
  {
    hide Lex, Number, Key;
    var m, n := Number(s[..Digits(s)]), Number(r[..Digits(r)]);
    var k, l := Key(s[Digits(s)..]), Key(r[Digits(r)..]);
    RestParts(s);
    RestParts(r);
    hide Rest, Digits;
    LexNext(0, [m] + k, 0, [n] + l);
    LexNext(m, k, n, l);
  }

  // ----- numbers

  predicate AllDigits(ds: Text) {
    forall i :: 0 <= i < |ds| ==> IsDigit(ds[i])
  }

  function Pow10(n: nat): (p: int)
    ensures p >= 1
  {
    if n == 0 then 1 else 10 * Pow10(n - 1)
  }

  lemma {:induction false} NumberBound(ds: Text)
    requires AllDigits(ds)
    ensures 0 <= Number(ds) < Pow10(|ds|)
    ensures ds != [] && ds[0] != 48 ==> Number(ds) >= Pow10(|ds| - 1)
  {
    if ds != [] {
      NumberBound(ds[..|ds| - 1]);
      if |ds| > 1 { assert Pow10(|ds| - 1) == 10 * Pow10(|ds| - 2); }
    }
  }

  lemma {:induction false} Pow10Mono(m: nat, n: nat)
    requires m <= n
    ensures Pow10(m) <= Pow10(n)
  {
    if m < n { Pow10Mono(m, n - 1); }
  }

  lemma {:induction false} LeadingZero(ds: Text)
    requires ds != [] && ds[0] == 48
    ensures Number(ds) == Number(ds[1..])
  {
    var n := |ds| - 1;
    if n == 0 {
      assert ds[..0] == [] && ds[1..] == [];
    } else {
      LeadingZero(ds[..n]);
      assert ds[1..][..n - 1] == ds[..n][1..];
    }
  }

  lemma {:induction false} NextDigit(s: Text, a: nat, i: nat)
    requires a <= i < |s|
    ensures Number(s[a..i + 1]) == 10 * Number(s[a..i]) + (s[i] as int - 48)
  {
    assert s[a..i + 1][..i - a] == s[a..i];
  }

  /** Without leading zeros the longer number is the greater one. */
  lemma {:induction false} LongerIsGreater(p: Text, q: Text)
    requires AllDigits(p) && AllDigits(q) && |q| < |p| && p[0] != 48
    ensures Number(q) < Number(p)
  {
    NumberBound(p);
    NumberBound(q);
    Pow10Mono(|q|, |p| - 1);
  }

  lemma {:induction false} DigitsTail(s: Text, a: nat, e: nat)
    requires a < e <= |s| && AllDigits(s[a..e])
    ensures IsDigit(s[a]) && AllDigits(s[a + 1..e])
  {
    var x, y := s[a..e], s[a + 1..e];
    assert s[a] == x[0];
    forall i | 0 <= i < |y| ensures IsDigit(y[i]) {
      var j := i + 1;
      assert y[i] == x[j];
    }
  }

  lemma {:induction false} DigitsMore(s: Text, a: nat, i: nat)
    requires a <= i < |s| && AllDigits(s[a..i]) && IsDigit(s[i])
    ensures AllDigits(s[a..i + 1])
  {
    assert s[a..i + 1] == s[a..i] + [s[i]];
  }

  lemma {:induction false} DigitsAt(s: Text, a: nat, e: nat)
    requires a <= e <= |s| && AllDigits(s[a..e]) && (e < |s| ==> !IsDigit(s[e]))
    ensures Digits(s[a..]) == e - a
    decreases e - a
  {
    if a < e {
      DigitsTail(s, a, e);
      DigitsAt(s, a + 1, e);
      assert s[a..][1..] == s[a + 1..];
    }
  }

  lemma {:induction false} DigitsAtLeast(s: Text, a: nat, k: nat)
    requires a <= k <= |s| && AllDigits(s[a..k])
    ensures k - a <= Digits(s[a..]) <= |s| - a
    ensures k < |s| && IsDigit(s[k]) ==> k - a < Digits(s[a..])
    decreases k - a
  {
    if a < k {
      DigitsTail(s, a, k);
      DigitsAtLeast(s, a + 1, k);
      assert s[a..][1..] == s[a + 1..];
    }
  }

  /** The number at i is the one at a, behind the leading zeros. */
  lemma {:induction false} NumberSplit(s: Text, i: nat, a: nat, e: nat)
    requires i <= a <= |s| && (forall k :: i <= k < a ==> s[k] == 48) && e == a + Digits(s[a..])
    ensures Digits(s[i..]) == e - i && e <= |s| && Number(s[i..][..e - i]) == Number(s[a..e]) && AllDigits(s[a..e])
    decreases a - i
  {
    if i < a {
      NumberSplit(s, i + 1, a, e);
      assert s[i..][1..] == s[i + 1..];
      assert s[i..e][1..] == s[i + 1..e] == s[i + 1..][..e - (i + 1)];
      LeadingZero(s[i..e]);
      assert s[i..][..e - i] == s[i..e];
    } else {
      assert s[i..][..e - i] == s[a..e];
      forall k | 0 <= k < e - a ensures IsDigit(s[a..e][k]) { assert s[a..e][k] == s[a..][k]; }
    }
  }

  // ----- the loops

  /** Compares the numbers at i and j: the sign of their difference, and the indexes behind them. */
  method CompareNumbers(val: Text, ref: Text, i: nat, j: nat) returns (r: int, i': nat, j': nat)
    requires i <= |val| && j <= |ref| && (i < |val| ==> IsDigit(val[i])) && (j < |ref| ==> IsDigit(ref[j]))
    ensures Sign(r) == Sign(Number(val[i..][..Digits(val[i..])]) - Number(ref[j..][..Digits(ref[j..])]))
    ensures r == 0 ==> i' == i + Digits(val[i..]) && j' == j + Digits(ref[j..])
  {
    hide Number, Digits, AllDigits;
    var a := SkipZeros(val, i);
    var b := SkipZeros(ref, j);
    NoDigits();
    assert val[a..a] == [] && ref[b..b] == [];
    i', j' := a, b;
    var firstDiff := 0;
    while i' < |val| && IsDigit(val[i']) && j' < |ref| && IsDigit(ref[j'])
      invariant a <= i' <= |val| && b <= j' <= |ref| && i' - a == j' - b
      invariant AllDigits(val[a..i']) && AllDigits(ref[b..j'])
      invariant Sign(firstDiff) == Sign(Number(val[a..i']) - Number(ref[b..j']))
    {
      if firstDiff == 0 { firstDiff := val[i'] as int - ref[j'] as int; }
      NextDigit(val, a, i');
      NextDigit(ref, b, j');
      DigitsMore(val, a, i');
      DigitsMore(ref, b, j');
      i', j' := i' + 1, j' + 1;
    }
    ghost var e, f := a + Digits(val[a..]), b + Digits(ref[b..]);
    NumberSplit(val, i, a, e);
    NumberSplit(ref, j, b, f);
    DigitsAtLeast(val, a, i');
    DigitsAtLeast(ref, b, j');
    if i' < |val| && IsDigit(val[i']) {
      DigitsAt(ref, b, j');
      LongerIsGreater(val[a..e], ref[b..f]);
      return 1, i', j';
    }
    DigitsAt(val, a, i');
    if j' < |ref| && IsDigit(ref[j']) {
      LongerIsGreater(ref[b..f], val[a..e]);
      return -1, i', j';
    }
    DigitsAt(ref, b, j');
    return firstDiff, i', j';
  }

  lemma {:induction false} NoDigits()
    ensures AllDigits([]) && Number([]) == 0
  {
  }

  method SkipZeros(s: Text, i: nat) returns (a: nat)
    requires i <= |s|
    ensures i <= a <= |s| && (forall k :: i <= k < a ==> s[k] == 48) && (a < |s| ==> s[a] != 48)
  {
    a := i;
    while a < |s| && s[a] == 48
      invariant i <= a <= |s| && forall k :: i <= k < a ==> s[k] == 48
    {
      a := a + 1;
    }
  }

  /** version_compare_part. */
  method VersionComparePart(val: Text, ref: Text) returns (r: int)
    ensures Sign(r) == Lex(Key(val), Key(ref))
  {
    hide Lex, Key, Rest, Order, Number, Digits;
    ghost var goal := Lex(Key(val), Key(ref));
    var i, j := 0, 0;
    assert val[0..] == val && ref[0..] == ref;
    while i < |val| || j < |ref|
      invariant 0 <= i <= |val| && 0 <= j <= |ref| && Lex(Key(val[i..]), Key(ref[j..])) == goal
      decreases |val| - i + |ref| - j
    {
      ghost var i0, j0 := i, j;
      KeyIsRest(val[i..], ref[j..]);
      while (i < |val| && !IsDigit(val[i])) || (j < |ref| && !IsDigit(ref[j]))
        invariant i0 <= i <= |val| && j0 <= j <= |ref| && Lex(Rest(val[i..]), Rest(ref[j..])) == goal
        decreases |val| - i
      {
        RestStep(val, i, ref, j);
        var vc, rc := Order(At(val, i)), Order(At(ref, j));
        if vc != rc { return vc - rc; }
        i, j := i + 1, j + 1;
      }
      RestNumber(val[i..], ref[j..]);
      var diff, i', j' := CompareNumbers(val, ref, i, j);
      SomeDigit(val, i);
      SomeDigit(ref, j);
      if diff != 0 { return diff; }
      assert val[i..][Digits(val[i..])..] == val[i'..] && ref[j..][Digits(ref[j..])..] == ref[j'..];
      i, j := i', j';
    }
    assert val[i..] == [] && ref[j..] == [];
    NoKey();
    return 0;
  }

  lemma {:induction false} NoKey()
    ensures Key([]) == [] && Lex([], []) == 0
  {
  }

  lemma {:induction false} SomeDigit(s: Text, i: nat)
    requires i <= |s|
    ensures i < |s| && IsDigit(s[i]) ==> Digits(s[i..]) > 0
    ensures i + Digits(s[i..]) <= |s|
  {
  }

  // ----- whole versions

  /** The position of the first colon. */
  function Colon(s: Text): (i: nat)
    ensures i <= |s| && (i < |s| ==> s[i] == 58) && forall k :: 0 <= k < i ==> s[k] != 58
  {
    if s == [] || s[0] == 58 then 0 else 1 + Colon(s[1..])
  }

  /** The position of the last hyphen, or the length. */
  function Hyphen(s: Text): (i: nat)
    ensures i <= |s| && (i < |s| ==> s[i] == 45 && forall k :: i < k < |s| ==> s[k] != 45)
    ensures i == |s| ==> forall k :: 0 <= k < |s| ==> s[k] != 45
  {
    if s == [] then 0
    else
      var n := |s| - 1;
      if s[n] == 45 then n else var i := Hyphen(s[..n]); if i == n then n + 1 else i
  }

  predicate IsSpace(c: int) {
    c == 32 || 9 <= c <= 13
  }

  /** atoi, without a limit. */
  function Atoi(s: Text): int {
    if s != [] && IsSpace(s[0]) then Atoi(s[1..])
    else if s != [] && s[0] == 45 then -Number(s[1..][..Digits(s[1..])])
    else if s != [] && s[0] == 43 then Number(s[1..][..Digits(s[1..])])
    else Number(s[..Digits(s)])
  }

  /** The epoch as an unsigned long of 64 bits. */
  function Epoch(s: Text): nat {
    if Colon(s) < |s| then Atoi(s) % 0x1_0000_0000_0000_0000 else 0
  }

  function WithoutEpoch(s: Text): Text {
    if Colon(s) < |s| then s[Colon(s) + 1..] else s
  }

  function Upstream(s: Text): Text {
    s[..Hyphen(s)]
  }

  function Revision(s: Text): Text {
    if Hyphen(s) < |s| then s[Hyphen(s) + 1..] else []
  }

  /** The order of versions: by epoch, then by upstream version, then by revision. */
  function Order3(v: Text, w: Text): (r: int)
    ensures r == -1 || r == 0 || r == 1
  {
    var a, b := WithoutEpoch(v), WithoutEpoch(w);
    if Epoch(v) != Epoch(w) then Sign(Epoch(v) - Epoch(w))
    else if Lex(Key(Upstream(a)), Key(Upstream(b))) != 0 then Lex(Key(Upstream(a)), Key(Upstream(b)))
    else Lex(Key(Revision(a)), Key(Revision(b)))
  }

  /** version_compare. */
  method VersionCompare(ver1: Text, ver2: Text) returns (r: int)
    ensures Sign(r) == Order3(ver1, ver2)
  {
    hide *;
    EpochParts(ver1);
    EpochParts(ver2);
    var ch1, ch2, epoch1, epoch2 := ver1, ver2, 0, 0;
    if Colon(ch1) < |ch1| {
      epoch1 := Atoi(ch1) % 0x1_0000_0000_0000_0000;
      ch1 := ch1[Colon(ch1) + 1..];
    }
    if Colon(ch2) < |ch2| {
      epoch2 := Atoi(ch2) % 0x1_0000_0000_0000_0000;
      ch2 := ch2[Colon(ch2) + 1..];
    }
    ByEpoch(ver1, ver2);
    if epoch1 < epoch2 { return -1; }
    if epoch1 > epoch2 { return 1; }
    RevisionParts(ch1);
    RevisionParts(ch2);
    var upstream1, deb1 := ch1, [];
    var h := Hyphen(upstream1);
    if h < |upstream1| { upstream1, deb1 := upstream1[..h], upstream1[h + 1..]; }
    var upstream2, deb2 := ch2, [];
    h := Hyphen(upstream2);
    if h < |upstream2| { upstream2, deb2 := upstream2[..h], upstream2[h + 1..]; }
    r := VersionComparePart(upstream1, upstream2);
    ByParts(ver1, ver2, r);
    if r == 0 { r := VersionComparePart(deb1, deb2); }
  }

  lemma {:induction false} EpochParts(s: Text)
    ensures 0 <= Colon(s) <= |s|
    ensures Colon(s) < |s| ==>
              Epoch(s) == Atoi(s) % 0x1_0000_0000_0000_0000 && WithoutEpoch(s) == s[Colon(s) + 1..]
    ensures Colon(s) == |s| ==> Epoch(s) == 0 && WithoutEpoch(s) == s
  {
  }

  lemma {:induction false} RevisionParts(s: Text)
    ensures 0 <= Hyphen(s) <= |s|
    ensures Hyphen(s) < |s| ==> Upstream(s) == s[..Hyphen(s)] && Revision(s) == s[Hyphen(s) + 1..]
    ensures Hyphen(s) == |s| ==> Upstream(s) == s && Revision(s) == []
  {
  }

  lemma {:induction false} ByEpoch(v: Text, w: Text)
    ensures Epoch(v) < Epoch(w) ==> Order3(v, w) == Sign(-1)
    ensures Epoch(v) > Epoch(w) ==> Order3(v, w) == Sign(1)
  {
    hide Epoch, Lex, Key;
  }

  lemma {:induction false} ByParts(v: Text, w: Text, r: int)
    ensures var a, b := WithoutEpoch(v), WithoutEpoch(w);
            Epoch(v) == Epoch(w) && Sign(r) == Lex(Key(Upstream(a)), Key(Upstream(b))) ==>
              Order3(v, w) == if r == 0 then Lex(Key(Revision(a)), Key(Revision(b))) else Sign(r)
  {
    hide Epoch, WithoutEpoch, Upstream, Revision, Lex, Key;
  }

  lemma {:induction false} OrderOpposite(v: Text, w: Text)
    ensures Order3(v, w) == -Order3(w, v) && Order3(v, v) == 0
  {
    hide Lex, Key, Atoi;
    var a, b := WithoutEpoch(v), WithoutEpoch(w);
    LexOpposite(Key(Upstream(a)), Key(Upstream(b)));
    LexOpposite(Key(Revision(a)), Key(Revision(b)));
    LexSelf(Key(Upstream(a)));
    LexSelf(Key(Revision(a)));
  }

  /** Versions are totally preordered. */
  lemma {:induction false} OrderTransitive(u: Text, v: Text, w: Text)
    requires Order3(u, v) <= 0 && Order3(v, w) <= 0
    ensures Order3(u, w) <= 0
    ensures Order3(u, w) == 0 ==> Order3(u, v) == 0 && Order3(v, w) == 0
  {
    hide Lex, Key, Atoi;
    var a, b, c := WithoutEpoch(u), WithoutEpoch(v), WithoutEpoch(w);
    if Epoch(u) == Epoch(v) == Epoch(w) {
      LexTransitive(Key(Upstream(a)), Key(Upstream(b)), Key(Upstream(c)));
      if Lex(Key(Upstream(a)), Key(Upstream(b))) == 0 && Lex(Key(Upstream(b)), Key(Upstream(c))) == 0 {
        LexOpposite(Key(Upstream(a)), Key(Upstream(b)));
        LexOpposite(Key(Upstream(b)), Key(Upstream(c)));
        LexOpposite(Key(Upstream(a)), Key(Upstream(c)));
        LexTransitive(Key(Upstream(c)), Key(Upstream(b)), Key(Upstream(a)));
        LexTransitive(Key(Revision(a)), Key(Revision(b)), Key(Revision(c)));
      }
    }
  }

  // ----- what the order means, in characters

  predicate Letter(c: int) {
    'A' as int <= c <= 'Z' as int || 'a' as int <= c <= 'z' as int
  }

  predicate Digit(c: int) {
    '0' as int <= c <= '9' as int
  }

  /** Neither a letter nor a digit nor a tilde. */
  predicate Mark(c: int) {
    !Letter(c) && !Digit(c) && c != '~' as int
  }

  /** A number does not begin here. */
  predicate NoNumber(s: Text) {
    s == [] || !Digit(s[0])
  }

  predicate NumberEnds(s: Text) {
    s == [] || !Digit(s[|s| - 1])
  }

  /** What two parts have in common does not matter, unless it ends within a number. */
  lemma {:induction false} CommonPrefix(p: Text, x: Text, y: Text)
    requires NumberEnds(p) || (NoNumber(x) && NoNumber(y))
    ensures Lex(Key(p + x), Key(p + y)) == Lex(Key(x), Key(y))
    decreases |p|
  {
    hide Lex, Number, Key, Order;
    KeyIsRest(p + x, p + y);
    if p == [] {
      assert p + x == x && p + y == y;
    } else if !IsDigit(p[0]) {
      assert (p + x)[1..] == p[1..] + x && (p + y)[1..] == p[1..] + y;
      KeyIsRest(p[1..] + x, p[1..] + y);
      CommonPrefix(p[1..], x, y);
      LexNext(Order(p[0]), Rest(p[1..] + x), Order(p[0]), Rest(p[1..] + y));
    } else {
      var d := Digits(p);
      DigitsStop(p, x);
      DigitsStop(p, y);
      assert (p + x)[..d] == p[..d] == (p + y)[..d];
      assert (p + x)[d..] == p[d..] + x && (p + y)[d..] == p[d..] + y;
      RestNumber(p + x, p + y);
      CommonPrefix(p[d..], x, y);
    }
  }

  lemma {:induction false} DigitsStop(p: Text, x: Text)
    requires p != [] && IsDigit(p[0]) && (NumberEnds(p) || NoNumber(x))
    ensures 1 <= Digits(p) <= |p| && Digits(p + x) == Digits(p) && (NumberEnds(p) ==> NumberEnds(p[Digits(p)..]))
  {
    DigitsJoin(p, x);
  }

  lemma {:induction false} DigitsJoin(p: Text, x: Text)
    requires NoNumber(x) || (p != [] && NumberEnds(p))
    ensures Digits(p + x) == Digits(p)
    decreases |p|
  {
    if p == [] {
      assert p + x == x;
    } else if IsDigit(p[0]) {
      assert (p + x)[1..] == p[1..] + x;
      DigitsJoin(p[1..], x);
    }
  }

  /** Parts that differ in a character where no number begins are in the order of these characters. */
  lemma {:induction false} FirstDifference(p: Text, x: Text, y: Text)
    requires NoNumber(x) && NoNumber(y) && Order(At(x, 0)) != Order(At(y, 0))
    ensures Lex(Key(p + x), Key(p + y)) == Sign(Order(At(x, 0)) - Order(At(y, 0)))
  {
    hide Lex, Key, Rest, Order;
    CommonPrefix(p, x, y);
    KeyIsRest(x, y);
    assert x[0..] == x && y[0..] == y;
    RestStep(x, 0, y, 0);
  }

  /** A tilde comes before the end of a part and before anything else. */
  lemma {:induction false} TildeFirst(p: Text, q: Text, r: Text)
    requires NoNumber(r) && (r == [] || r[0] != '~' as int)
    ensures Lex(Key(p + ['~' as int] + q), Key(p + r)) == -1
  {
    hide Lex, Key;
    assert p + ['~' as int] + q == p + (['~' as int] + q);
    FirstDifference(p, ['~' as int] + q, r);
  }

  /** The end of a part comes before letters and signs. */
  lemma {:induction false} EndFirst(p: Text, a: Char, q: Text)
    requires Letter(a) || Mark(a)
    ensures Lex(Key(p), Key(p + [a] + q)) == -1
  {
    hide Lex, Key;
    assert p + [a] + q == p + ([a] + q) && p + [] == p;
    FirstDifference(p, [], [a] + q);
  }

  /** Letters come before signs, and letters and signs are each in the order of their codes. */
  lemma {:induction false} LettersFirst(p: Text, a: Char, q: Text, b: Char, r: Text)
    requires (Letter(a) && Mark(b)) || (Letter(a) && Letter(b) && a < b) || (Mark(a) && Mark(b) && a < b)
    ensures Lex(Key(p + [a] + q), Key(p + [b] + r)) == -1
  {
    hide Lex, Key;
    assert p + [a] + q == p + ([a] + q) && p + [b] + r == p + ([b] + r);
    FirstDifference(p, [a] + q, [b] + r);
  }

  /** Numbers are in the order of their values, and what follows decides only between equal ones. */
  lemma {:induction false} NumbersByValue(p: Text, ds: Text, es: Text, q: Text, r: Text)
    requires NumberEnds(p) && NoNumber(q) && NoNumber(r) && ds != [] && es != []
    requires forall i :: 0 <= i < |ds| ==> Digit(ds[i])
    requires forall i :: 0 <= i < |es| ==> Digit(es[i])
    ensures Number(ds) < Number(es) ==> Lex(Key(p + ds + q), Key(p + es + r)) == -1
    ensures Number(ds) == Number(es) ==> Lex(Key(p + ds + q), Key(p + es + r)) == Lex(Key(q), Key(r))
  {
    hide Lex, Number, Key, Order, Rest;
    assert p + ds + q == p + (ds + q) && p + es + r == p + (es + r);
    CommonPrefix(p, ds + q, es + r);
    KeyIsRest(ds + q, es + r);
    WholeNumber(ds, q);
    WholeNumber(es, r);
    RestNumber(ds + q, es + r);
  }

  lemma {:induction false} WholeNumber(ds: Text, x: Text)
    requires (forall i :: 0 <= i < |ds| ==> Digit(ds[i])) && NoNumber(x)
    ensures Digits(ds + x) == |ds| && (ds + x)[..|ds|] == ds && (ds + x)[|ds|..] == x
  {
    DigitsJoin(ds, x);
    AllOfIt(ds);
  }

  lemma {:induction false} AllOfIt(ds: Text)
    requires forall i :: 0 <= i < |ds| ==> Digit(ds[i])
    ensures Digits(ds) == |ds|
  {
    if ds != [] { AllOfIt(ds[1..]); }
  }

  /** A version with a tilde and anything behind it, but no colon and no hyphen, comes before the version without. */
  lemma {:induction false} ReleaseCandidate(v: Text, q: Text)
    requires forall i :: 0 <= i < |q| ==> q[i] != ':' as int && q[i] != '-' as int
    ensures Order3(v + ['~' as int] + q, v) == -1
  {
    hide Lex, Key, Epoch, WithoutEpoch, Upstream, Revision, Hyphen, Order3;
    var x := ['~' as int] + q;
    assert v + ['~' as int] + q == v + x;
    EpochJoin(v, x);
    var a := WithoutEpoch(v);
    HyphenJoin(a, x);
    TildeBehind(Upstream(a), q);
    TildeBehind(Revision(a), q);
    ByParts(v + x, v, Lex(Key(Upstream(a + x)), Key(Upstream(a))));
    LexSelf(Key(Upstream(a)));
  }

  lemma {:induction false} TildeBehind(p: Text, q: Text)
    ensures Lex(Key(p + (['~' as int] + q)), Key(p)) == -1
  {
    hide Lex, Key;
    TildeFirst(p, q, []);
    assert p + [] == p && p + (['~' as int] + q) == p + ['~' as int] + q;
  }

  lemma {:induction false} ColonJoin(v: Text, x: Text)
    requires forall i :: 0 <= i < |x| ==> x[i] != ':' as int
    ensures Colon(v + x) == if Colon(v) < |v| then Colon(v) else |v| + |x|
  {
    var c := Colon(v + x);
    if Colon(v) < |v| {
      assert (v + x)[Colon(v)] == ':' as int;
      assert c < |v| ==> v[c] == ':' as int;
    } else {
      forall k | 0 <= k < |v + x| ensures (v + x)[k] != ':' as int {
        assert (v + x)[k] == if k < |v| then v[k] else x[k - |v|];
      }
    }
  }

  lemma {:induction false} EpochJoin(v: Text, x: Text)
    requires forall i :: 0 <= i < |x| ==> x[i] != ':' as int
    ensures Epoch(v + x) == Epoch(v) && WithoutEpoch(v + x) == WithoutEpoch(v) + x
  {
    hide Atoi;
    ColonJoin(v, x);
    if Colon(v) < |v| { AtoiJoin(v, x); }
  }

  /** The colon stops atoi. */
  lemma {:induction false} AtoiJoin(v: Text, x: Text)
    requires ':' as int in v
    ensures Atoi(v + x) == Atoi(v)
    decreases |v|
  {
    hide Number;
    assert (v + x)[1..] == v[1..] + x && (v + x)[0] == v[0];
    if v[0] == ':' as int {
    } else if IsSpace(v[0]) {
      AtoiJoin(v[1..], x);
    } else {
      DigitsBefore(v[1..], x);
      DigitsBefore(v, x);
    }
  }

  lemma {:induction false} DigitsBefore(v: Text, x: Text)
    requires ':' as int in v
    ensures Digits(v + x) == Digits(v) < |v| && (v + x)[..Digits(v)] == v[..Digits(v)]
    decreases |v|
  {
    if IsDigit(v[0]) {
      assert (v + x)[1..] == v[1..] + x;
      DigitsBefore(v[1..], x);
    }
  }

  lemma {:induction false} HyphenJoin(a: Text, x: Text)
    requires forall i :: 0 <= i < |x| ==> x[i] != '-' as int
    ensures Hyphen(a) < |a| ==> Upstream(a + x) == Upstream(a) && Revision(a + x) == Revision(a) + x
    ensures Hyphen(a) == |a| ==> Upstream(a + x) == a + x && Revision(a + x) == [] && Upstream(a) == a
  {
    var h := Hyphen(a + x);
    if Hyphen(a) < |a| {
      assert (a + x)[Hyphen(a)] == '-' as int;
      forall k | |a| <= k < |a + x| ensures (a + x)[k] != '-' as int { assert (a + x)[k] == x[k - |a|]; }
      assert h < |a| ==> a[h] == '-' as int;
    } else {
      forall k | 0 <= k < |a + x| ensures (a + x)[k] != '-' as int {
        assert (a + x)[k] == if k < |a| then a[k] else x[k - |a|];
      }
    }
  }

  /** Epochs are compared first, as decimal numbers; a version without one has epoch 0. */
  lemma {:induction false} EpochFirst(ds: Text, v: Text, es: Text, w: Text)
    requires forall i :: 0 <= i < |ds| ==> Digit(ds[i])
    requires forall i :: 0 <= i < |es| ==> Digit(es[i])
    requires 0 <= Number(ds) < Number(es) < 0x1_0000_0000_0000_0000
    ensures Order3(ds + [':' as int] + v, es + [':' as int] + w) == -1
    ensures ':' as int !in v && 0 < Number(es) ==> Order3(v, es + [':' as int] + w) == -1
  {
    hide Number, Lex, Key;
    EpochIs(ds, v);
    EpochIs(es, w);
  }

  lemma {:induction false} EpochIs(ds: Text, v: Text)
    requires forall i :: 0 <= i < |ds| ==> Digit(ds[i])
    requires 0 <= Number(ds) < 0x1_0000_0000_0000_0000
    ensures Epoch(ds + [':' as int] + v) == Number(ds) && WithoutEpoch(ds + [':' as int] + v) == v
  {
    hide Number;
    var s, x := ds + [':' as int] + v, [':' as int] + v;
    assert s == ds + x;
    WholeNumber(ds, x);
    assert s[|ds|] == ':' as int;
    assert forall i :: 0 <= i < |ds| ==> s[i] == ds[i] && Digit(s[i]);
    assert Colon(s) == |ds|;
    if ds == [] { assert s[..0] == []; }
  }

  /** atoi reads a decimal number behind blanks and a sign, and stops behind it. */
  lemma {:induction false} AtoiMeans(blanks: Text, ds: Text, x: Text)
    requires forall i :: 0 <= i < |blanks| ==> blanks[i] in {9, 10, 11, 12, 13, 32}
    requires (forall i :: 0 <= i < |ds| ==> Digit(ds[i])) && NoNumber(x)
    ensures ds != [] ==> Atoi(blanks + ds + x) == Number(ds)
    ensures Atoi(blanks + ['+' as int] + ds + x) == Number(ds)
    ensures Atoi(blanks + ['-' as int] + ds + x) == -Number(ds)
  {
    hide Atoi, Number, Digits;
    var plus, minus: Text := ['+' as int], ['-' as int];
    AtoiSign(ds, x);
    AtoiBlanks(blanks, ds + x);
    AtoiBlanks(blanks, plus + (ds + x));
    AtoiBlanks(blanks, minus + (ds + x));
    assert blanks + ds + x == blanks + (ds + x) && blanks + plus + ds + x == blanks + (plus + (ds + x));
    assert blanks + minus + ds + x == blanks + (minus + (ds + x));
  }

  lemma {:induction false} AtoiBlanks(blanks: Text, t: Text)
    requires forall i :: 0 <= i < |blanks| ==> blanks[i] in {9, 10, 11, 12, 13, 32}
    ensures Atoi(blanks + t) == Atoi(t)
  {
    hide Number, Digits;
    if blanks == [] {
      assert blanks + t == t;
    } else {
      AtoiBlanks(blanks[1..], t);
      assert (blanks + t)[1..] == blanks[1..] + t;
    }
  }

  lemma {:induction false} AtoiSign(ds: Text, x: Text)
    requires (forall i :: 0 <= i < |ds| ==> Digit(ds[i])) && NoNumber(x)
    ensures ds != [] ==> Atoi(ds + x) == Number(ds)
    ensures Atoi(['+' as int] + (ds + x)) == Number(ds) && Atoi(['-' as int] + (ds + x)) == -Number(ds)
  {
    hide Number, Digits;
    WholeNumber(ds, x);
    var y := ds + x;
    assert (['+' as int] + y)[1..] == y && (['-' as int] + y)[1..] == y;
    if ds != [] { assert y[0] == ds[0]; }
  }

  // ----- relations between versions

  datatype Operator = VER_NULL | VER_EQUAL | VER_LESS | VER_LESS_EQUAL | VER_MORE | VER_MORE_EQUAL | VER_ANY

  /** What a versioned dependency asks for. */
  predicate Allows(op: Operator, order: int) {
    match op
    case VER_ANY => true
    case VER_EQUAL => order == 0
    case VER_LESS => order < 0
    case VER_LESS_EQUAL => order <= 0
    case VER_MORE => order > 0
    case VER_MORE_EQUAL => order >= 0
    case VER_NULL => false
  }

  /** test_version. */
  method TestVersion(version1: Text, version2: Text, op: Operator) returns (ok: bool)
    ensures ok == Allows(op, Order3(version1, version2))
  {
    hide Order3;
    var result := VersionCompare(version1, version2);
    match op {
      case VER_ANY => return true;
      case VER_EQUAL => return result == 0;
      case VER_LESS => return result < 0;
      case VER_LESS_EQUAL => return result <= 0;
      case VER_MORE => return result > 0;
      case VER_MORE_EQUAL => return result >= 0;
      case VER_NULL => return false;
    }
  }
}
