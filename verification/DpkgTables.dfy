/** The open-addressing tables of dpkg.c: make_hash, search_name_hashtable and search_package_hashtable. */
module DpkgTables {
  import Bits
  import opened DpkgVersion
  import opened Wrappers

  const NAME_HASH_PRIME := 16381
  const PACKAGE_HASH_PRIME := 10007

  // ----- the table sizes are primes

  ghost predicate Prime(p: nat) {
    p >= 2 && forall d :: 2 <= d < p ==> p % d != 0
  }

  lemma {:induction false} NoSmallDivisor(d: nat)
    requires 2 <= d < 128
    ensures NAME_HASH_PRIME % d != 0 && PACKAGE_HASH_PRIME % d != 0
  {
    var a, b := d / 16, d % 16;
    assert a == 0 || a == 1 || a == 2 || a == 3 || a == 4 || a == 5 || a == 6 || a == 7;
    assert b == 0 || b == 1 || b == 2 || b == 3 || b == 4 || b == 5 || b == 6 || b == 7
        || b == 8 || b == 9 || b == 10 || b == 11 || b == 12 || b == 13 || b == 14 || b == 15;
    assert d == 16 * a + b;
  }

  lemma {:induction false} SizesArePrime()
    ensures Prime(NAME_HASH_PRIME) && Prime(PACKAGE_HASH_PRIME)
  {
    forall d | 2 <= d < NAME_HASH_PRIME ensures NAME_HASH_PRIME % d != 0 { NoDivisor(NAME_HASH_PRIME, d); }
    forall d | 2 <= d < PACKAGE_HASH_PRIME ensures PACKAGE_HASH_PRIME % d != 0 { NoDivisor(PACKAGE_HASH_PRIME, d); }
  }

  lemma {:induction false} NoDivisor(p: nat, d: nat)
    requires p == NAME_HASH_PRIME || p == PACKAGE_HASH_PRIME
    requires 2 <= d < p
    ensures p % d != 0
  {
    if p % d == 0 {
      var k := p / d;
      Exact(p, d, k);
      if d < 128 {
        NoSmallDivisor(d);
      } else {
        if k >= 128 { Product128(d, k); }
        Multiple(k, d);
        NoSmallDivisor(k);
      }
    }
  }

  lemma {:induction false} Exact(p: nat, d: nat, k: nat)
    requires 2 <= d < p && p % d == 0 && k == p / d
    ensures p == k * d && 2 <= k
  {
    assert p == k * d;
    assert k != 0 && k != 1;
  }

  lemma {:induction false} Product128(d: nat, k: nat)
    requires d >= 128 && k >= 128
    ensures k * d >= 16384
  {
    assert (k - 128) * d >= 0;
    assert k * d == (k - 128) * d + 128 * d;
  }

  lemma {:induction false} Multiple(k: nat, d: nat)
    requires k > 0
    ensures (k * d) % k == 0
  {
    ModIs(k * d, k, d, 0);
  }

  lemma {:induction false} ModIs(v: int, m: nat, q: int, r: nat)
    requires v == q * m + r && r < m
    ensures v % m == r
  {
    Bits.ModUnique(v, m, q, r);
  }

  // ----- a step below a prime reaches every slot

  lemma {:induction false} Bezout(a: nat, b: nat) returns (x: int, y: int, g: nat)
    requires a > 0
    ensures g > 0 && a * x + b * y == g && a % g == 0 && b % g == 0
    decreases b
  {
    if b == 0 {
      x, y, g := 1, 0, a;
    } else {
      var x', y', q, r := 0, 0, a / b, a % b;
      x', y', g := Bezout(b, r);
      x, y := y', x' - q * y';
      BezoutStep(a, b, q, r, x', y');
      SumMod(b, r, q, g);
    }
  }

  lemma {:induction false} BezoutStep(a: int, b: int, q: int, r: int, x: int, y: int)
    requires a == q * b + r
    ensures a * y + b * (x - q * y) == b * x + r * y
  {
    assert (q * b) * y == b * (q * y);
  }

  lemma {:induction false} SumMod(b: nat, r: nat, q: nat, g: nat)
    requires g > 0 && b % g == 0 && r % g == 0
    ensures (q * b + r) % g == 0
  {
    var u, v := b / g, r / g;
    assert b == u * g && r == v * g;
    assert q * (u * g) == (q * u) * g;
    ModIs(q * b + r, g, q * u + v, 0);
  }

  /** The n-th slot probed. */
  function Probe(start: nat, decrement: nat, n: nat, p: nat): (i: nat)
    requires p > 0
    ensures i < p
  {
    (start - n * decrement) % p
  }

  /** A step has an inverse modulo the prime. */
  lemma {:induction false} Inverse(d: nat, p: nat) returns (x: int, y: int)
    requires Prime(p) && 1 <= d < p
    ensures p * x + d * y == 1
  {
    var g;
    x, y, g := Bezout(p, d);
    assert g <= d by { SmallMod(d, g); }
    OnlyOne(p, g);
  }

  /** Among the first p slots probed is slot f. */
  lemma {:induction false} Reaches(start: nat, decrement: nat, f: nat, p: nat) returns (n: nat)
    requires Prime(p) && start < p && 1 <= decrement < p && f < p
    ensures n < p && Probe(start, decrement, n, p) == f
  {
    var x, y := Inverse(decrement, p);
    var t := (start - f) * y;
    n := t % p;
    var q := t / p;
    assert t == q * p + n;
    Solves(start, decrement, f, p, x, y, q, n);
  }

  lemma {:induction false} OnlyOne(p: nat, g: nat)
    requires Prime(p) && 1 <= g < p && p % g == 0
    ensures g == 1
  {
  }

  lemma {:induction false} SmallMod(v: nat, m: nat)
    requires m > 0
    ensures v < m ==> v % m == v
  {
  }

  lemma {:induction false} Solves(start: int, d: int, f: nat, p: nat, x: int, y: int, q: int, n: int)
    requires p > 0 && f < p && p * x + d * y == 1 && (start - f) * y == q * p + n
    ensures (start - n * d) % p == f
  {
    var s := start - f;
    assert n * d == (s * y - q * p) * d == s * (d * y) - (q * d) * p by {
      assert (s * y) * d == s * (d * y);
      assert (q * p) * d == (q * d) * p;
    }
    assert s * (d * y) == s * (1 - p * x) == s - (s * x) * p by {
      assert d * y == 1 - p * x;
      assert s * (p * x) == (s * x) * p;
    }
    var k := s * x + q * d;
    assert k * p == (s * x) * p + (q * d) * p;
    ModIs(start - n * d, p, k, f);
  }

  /** No slot comes up twice among them. */
  lemma {:induction false} ProbesDiffer(start: nat, d: nat, n: nat, m: nat, p: nat)
    requires Prime(p) && start < p && 1 <= d < p && n < p && m < p && Probe(start, d, n, p) == Probe(start, d, m, p)
    ensures n == m
  {
    var x, y := Inverse(d, p);
    var z, k := m - n, (start - n * d) / p - (start - m * d) / p;
    SameRest(start, d, n, m, p);
    Cancel(z, d, k, p, x, y);
    SmallMultiple(z, z * x + k * y, p);
  }

  lemma {:induction false} SameRest(start: int, d: int, n: int, m: int, p: nat)
    requires p > 0 && (start - n * d) % p == (start - m * d) % p
    ensures (m - n) * d == ((start - n * d) / p - (start - m * d) / p) * p
  {
    var u, v := start - n * d, start - m * d;
    assert u == (u / p) * p + u % p && v == (v / p) * p + v % p;
    assert (m - n) * d == m * d - n * d == u - v;
    assert (u / p - v / p) * p == (u / p) * p - (v / p) * p;
  }

  lemma {:induction false} Cancel(z: int, d: int, k: int, p: int, x: int, y: int)
    requires p * x + d * y == 1 && z * d == k * p
    ensures z == (z * x + k * y) * p
  {
    assert z * (p * x + d * y) == z * (p * x) + z * (d * y) == z;
    assert z * (p * x) == (z * x) * p;
    assert z * (d * y) == (z * d) * y == (k * p) * y == (k * y) * p;
    assert (z * x + k * y) * p == (z * x) * p + (k * y) * p;
  }

  lemma {:induction false} SmallMultiple(z: int, k: int, p: nat)
    requires z == k * p && z < p && 0 < z + p
    ensures z == 0
  {
    assert p * k == k * p && p * 0 == 0;
    Bits.MulLess(0, k, p);
    Bits.MulLess(k, 0, p);
  }

  /** Among the first p slots probed is slot f. */
  ghost predicate Visits(start: nat, decrement: nat, p: nat, f: nat)
    requires p > 0
  {
    exists n: nat :: n < p && Probe(start, decrement, n, p) == f
  }

  /** A search that goes on for p steps visits every slot exactly once. */
  lemma {:induction false} VisitsAll(start: nat, decrement: nat, p: nat)
    requires Prime(p) && start < p && 1 <= decrement < p
    ensures forall f: nat :: f < p ==> Visits(start, decrement, p, f)
    ensures forall n: nat, m: nat :: n < m < p ==> Probe(start, decrement, n, p) != Probe(start, decrement, m, p)
  {
    hide Probe, Prime;
    forall f: nat | f < p ensures Visits(start, decrement, p, f) {
      var n := Reaches(start, decrement, f, p);
    }
    forall n: nat, m: nat | n < m < p ensures Probe(start, decrement, n, p) != Probe(start, decrement, m, p) {
      if Probe(start, decrement, n, p) == Probe(start, decrement, m, p) { ProbesDiffer(start, decrement, n, m, p); }
    }
  }

  /** The next slot, as the loops compute it. */
  lemma {:induction false} ProbeNext(start: nat, decrement: nat, n: nat, p: nat)
    requires p > 0 && 1 <= decrement < p
    ensures var i := Probe(start, decrement, n, p) - decrement;
            Probe(start, decrement, n + 1, p) == if i < 0 then i + p else i
  {
    var v := start - n * decrement;
    var i := v % p;
    var k := v / p;
    assert v == k * p + i;
    assert start - (n + 1) * decrement == v - decrement;
    if i < decrement {
      assert (k - 1) * p == k * p - p;
      ModIs(v - decrement, p, k - 1, i - decrement + p);
    } else {
      ModIs(v - decrement, p, k, i - decrement);
    }
  }

  /** make_hash from the hash number of a key, which is 64 bits wide and cut to 32 for the start. */
  method MakeHash(hashNum: nat, hashPrime: nat) returns (start: nat, decrement: nat)
    requires hashPrime >= 2
    ensures start == Start(hashNum, hashPrime) < hashPrime && decrement == Decrement(hashNum, hashPrime)
            && 1 <= decrement < hashPrime
  {
    start := (hashNum % 0x1_0000_0000) % hashPrime;
    decrement := 1 + hashNum % (hashPrime - 1);
  }

  function Start(hashNum: nat, p: nat): (s: nat)
    requires p >= 2
    ensures s < p
  {
    (hashNum % 0x1_0000_0000) % p
  }

  function Decrement(hashNum: nat, p: nat): (d: nat)
    requires p >= 2
    ensures 1 <= d < p
  {
    1 + hashNum % (p - 1)
  }

  // ----- the table of names

  /** The slots that the loop visits for a hash number. */
  function Path(hashNum: nat, n: nat, p: nat): (i: nat)
    requires p >= 2
    ensures i < p
  {
    Probe(Start(hashNum, p), Decrement(hashNum, p), n, p)
  }

  ghost predicate HasFree<T>(t: seq<Option<T>>, p: nat)
  {
    p <= |t| && exists f :: 0 <= f < p && t[f].None?
  }

  lemma {:induction false} PathReaches(hashNum: nat, f: nat, p: nat) returns (n: nat)
    requires Prime(p) && f < p
    ensures Path(hashNum, n, p) == f
  {
    n := Reaches(Start(hashNum, p), Decrement(hashNum, p), f, p);
  }

  lemma {:induction false} PathNext(hashNum: nat, n: nat, p: nat)
    requires p >= 2
    ensures var i := Path(hashNum, n, p) - Decrement(hashNum, p);
            Path(hashNum, n + 1, p) == if i < 0 then i + p else i
  {
    ProbeNext(Start(hashNum, p), Decrement(hashNum, p), n, p);
  }

  lemma {:induction false} PathStart(hashNum: nat, p: nat)
    requires p >= 2
    ensures Path(hashNum, 0, p) == Start(hashNum, p)
  {
    hide Start, Decrement;
    SmallMod(Start(hashNum, p), p);
  }

  class Names {
    const table: array<Option<Text>>
    const hashNum: Text -> nat

    constructor (hashNum: Text -> nat)
      ensures this.hashNum == hashNum && Valid() && fresh(table)
              && forall i :: 0 <= i < NAME_HASH_PRIME ==> table[i] == None
    {
      this.hashNum := hashNum;
      table := new Option<Text>[NAME_HASH_PRIME + 1](_ => None);
    }

    /** After n steps the search for the key is at slot i, having passed other keys only. */
    ghost predicate OnPath(t: seq<Option<Text>>, key: Text, i: nat, n: nat)
      requires NAME_HASH_PRIME <= |t|
    {
      Path(hashNum(key), n, NAME_HASH_PRIME) == i && forall m :: 0 <= m < n ==> Passed(t, key, m)
    }

    ghost predicate Passed(t: seq<Option<Text>>, key: Text, m: nat)
      requires NAME_HASH_PRIME <= |t|
    {
      var o := t[Path(hashNum(key), m, NAME_HASH_PRIME)];
      o.Some? && o.value != key
    }

    /** Every key stored is where the search for it ends. */
    ghost predicate Reached(t: seq<Option<Text>>, i: nat)
      requires i < NAME_HASH_PRIME <= |t|
    {
      t[i].Some? ==> exists n: nat :: OnPath(t, t[i].value, i, n)
    }

    ghost predicate Valid()
      reads table
    {
      table.Length == NAME_HASH_PRIME + 1 && forall i :: 0 <= i < NAME_HASH_PRIME ==> Reached(table[..], i)
    }

    ghost predicate Stored(key: Text)
      reads table
    {
      NAME_HASH_PRIME <= table.Length && exists i :: 0 <= i < NAME_HASH_PRIME && table[i] == Some(key)
    }

    /** Of two slots on the path of a key, the search passes the earlier one. */
    lemma {:induction false} PathOrder(t: seq<Option<Text>>, key: Text, i: nat, n: nat, j: nat, m: nat)
      requires NAME_HASH_PRIME <= |t| && OnPath(t, key, i, n) && OnPath(t, key, j, m)
      ensures n < m ==> t[i].Some? && t[i].value != key
      ensures m < n ==> t[j].Some? && t[j].value != key
      ensures n == m ==> i == j
    {
      if n < m { assert Passed(t, key, n); }
      if m < n { assert Passed(t, key, m); }
    }

    /** No key is stored twice. */
    lemma {:induction false} StoredOnce(i: nat, j: nat)
      requires Valid() && i < NAME_HASH_PRIME && j < NAME_HASH_PRIME && table[i].Some? && table[i] == table[j]
      ensures i == j
    {
      var t, key := table[..], table[i].value;
      assert Reached(t, i) && Reached(t, j);
      var n: nat :| OnPath(t, key, i, n);
      var m: nat :| OnPath(t, key, j, m);
      PathOrder(t, key, i, n, j, m);
    }

    /** Where the search for the key ends at the latest. */
    lemma {:induction false} SearchEnds(key: Text) returns (n: nat)
      requires Valid() && (HasFree(table[..], NAME_HASH_PRIME) || Stored(key))
      ensures !Passed(table[..], key, n)
    {
      hide Path;
      if Stored(key) {
        var i :| 0 <= i < NAME_HASH_PRIME && table[i] == Some(key);
        assert Reached(table[..], i);
        n :| OnPath(table[..], key, i, n);
      } else {
        var f :| 0 <= f < NAME_HASH_PRIME && table[..][f].None?;
        SizesArePrime();
        n := PathReaches(hashNum(key), f, NAME_HASH_PRIME);
      }
    }

    /** The search ends exactly if there is a free slot or the key is stored; otherwise it goes round for ever. */
    lemma {:induction false} SearchEndsExactly(key: Text)
      requires Valid()
      ensures (exists n: nat :: !Passed(table[..], key, n)) <==> HasFree(table[..], NAME_HASH_PRIME) || Stored(key)
    {
      hide Path;
      if HasFree(table[..], NAME_HASH_PRIME) || Stored(key) {
        var n := SearchEnds(key);
      }
      forall n: nat | !Passed(table[..], key, n) ensures HasFree(table[..], NAME_HASH_PRIME) || Stored(key) {
        var i := Path(hashNum(key), n, NAME_HASH_PRIME);
        assert table[i] == table[..][i];
      }
    }

    /** A new key, put where its search has ended, does not disturb the others. */
    lemma {:induction false} StoreKeeps(t: seq<Option<Text>>, key: Text, i: nat, n: nat)
      requires |t| == NAME_HASH_PRIME + 1 && i < NAME_HASH_PRIME && t[i].None? && OnPath(t, key, i, n)
      requires forall j :: 0 <= j < NAME_HASH_PRIME ==> Reached(t, j)
      ensures var u := t[i := Some(key)]; forall j :: 0 <= j < NAME_HASH_PRIME ==> Reached(u, j)
    {
      hide Path;
      var u := t[i := Some(key)];
      forall j | 0 <= j < NAME_HASH_PRIME ensures Reached(u, j) {
        if j == i {
          PathKept(t, key, i, n, key, i);
        } else if u[j].Some? {
          assert Reached(t, j);
          var m: nat :| OnPath(t, t[j].value, j, m);
          PathKept(t, t[j].value, j, m, key, i);
        }
      }
    }

    lemma {:induction false} PathKept(t: seq<Option<Text>>, key: Text, j: nat, n: nat, new': Text, i: nat)
      requires NAME_HASH_PRIME <= |t| && i < |t| && t[i].None? && OnPath(t, key, j, n)
      ensures OnPath(t[i := Some(new')], key, j, n)
    {
      hide Path;
      var u := t[i := Some(new')];
      forall m | 0 <= m < n ensures Passed(u, key, m) {
        assert Passed(t, key, m);
      }
    }

    /** search_name_hashtable: the slot of the key, which is added if it is new. */
    method SearchName(key: Text) returns (probe: nat)
      requires Valid() && (HasFree(table[..], NAME_HASH_PRIME) || Stored(key))
      modifies table
      ensures Valid() && probe < NAME_HASH_PRIME && table[probe] == Some(key)
      ensures old(Stored(key)) ==> table[..] == old(table[..])
      ensures !old(Stored(key)) ==> old(table[probe]) == None && table[..] == old(table[..])[probe := Some(key)]
    {
      hide Path;
      ghost var t := table[..];
      ghost var last := SearchEnds(key);
      var decrement;
      probe, decrement := MakeHash(hashNum(key), NAME_HASH_PRIME);
      PathStart(hashNum(key), NAME_HASH_PRIME);
      ghost var n: nat := 0;
      while table[probe].Some?
        invariant table[..] == t && OnPath(t, key, probe, n) && n <= last && probe < NAME_HASH_PRIME
        decreases last - n
      {
        if table[probe].value == key { return; }
        assert Passed(t, key, n);
        PathNext(hashNum(key), n, NAME_HASH_PRIME);
        n := n + 1;
        probe := if probe < decrement then probe + NAME_HASH_PRIME - decrement else probe - decrement;
      }
      NotStored(key, probe, n);
      StoreKeeps(t, key, probe, n);
      table[probe] := Some(key);
    }

    lemma {:induction false} NotStored(key: Text, i: nat, n: nat)
      requires Valid() && i < NAME_HASH_PRIME && table[i].None? && OnPath(table[..], key, i, n)
      ensures !Stored(key)
    {
      if Stored(key) {
        var j :| 0 <= j < NAME_HASH_PRIME && table[j] == Some(key);
        assert Reached(table[..], j);
        var m: nat :| OnPath(table[..], key, j, m);
        PathOrder(table[..], key, i, n, j, m);
      }
    }
  }

  /** How many of the first n slots are free. */
  function FreeSlots<T>(t: seq<Option<T>>, n: nat): nat
    requires n <= |t|
  {
    if n == 0 then 0 else FreeSlots(t, n - 1) + if t[n - 1].None? then 1 else 0
  }

  lemma {:induction false} SomeFree<T>(t: seq<Option<T>>, n: nat)
    requires n <= |t| && FreeSlots(t, n) > 0
    ensures HasFree(t, n)
  {
    if t[n - 1].Some? { SomeFree(t, n - 1); }
  }

  lemma {:induction false} OneTaken<T>(t: seq<Option<T>>, n: nat, i: nat, x: T)
    requires n <= |t| && i < |t| && t[i].None?
    ensures FreeSlots(t[i := Some(x)], n) == FreeSlots(t, n) - if i < n then 1 else 0
  {
    if n > 0 { OneTaken(t, n - 1, i, x); }
  }

  /** The keys of a run of lookups for which the table needs a slot, each counted once. */
  ghost function NewKeys(t: seq<Option<Text>>, keys: seq<Text>): set<Text>
    requires NAME_HASH_PRIME <= |t|
  {
    set k | k in keys && forall i :: 0 <= i < NAME_HASH_PRIME ==> t[i] != Some(k)
  }

  lemma {:induction false} NewKeyTaken(t: seq<Option<Text>>, t': seq<Option<Text>>, keys: seq<Text>, slot: nat)
    requires keys != [] && slot < NAME_HASH_PRIME <= |t|
    requires (t' == t && t[slot] == Some(keys[0])) || (t[slot] == None && t' == t[slot := Some(keys[0])])
    requires |NewKeys(t, keys)| <= FreeSlots(t, NAME_HASH_PRIME)
    requires t[slot] == None ==> keys[0] in NewKeys(t, keys)
    ensures |NewKeys(t', keys[1..])| <= FreeSlots(t', NAME_HASH_PRIME)
  {
    var before, after := NewKeys(t, keys), NewKeys(t', keys[1..]);
    forall k | k in after ensures k in before && k != keys[0] {
      assert t'[slot] == Some(keys[0]);
      forall i | 0 <= i < NAME_HASH_PRIME ensures t[i] != Some(k) { assert t'[i] != Some(k); }
    }
    if t[slot] == None {
      OneTaken(t, NAME_HASH_PRIME, slot, keys[0]);
      Fewer(after, before - {keys[0]});
    } else {
      Fewer(after, before);
    }
  }

  lemma {:induction false} Fewer<T>(a: set<T>, b: set<T>)
    requires a <= b
    ensures |a| <= |b|
  {
    assert b == a + (b - a);
  }

  /** Any run of lookups for whose new keys there is room: two of them give the same index exactly if their keys are
      equal, and no earlier entry moves. */
  method LookUpAll(names: Names, keys: seq<Text>) returns (slots: seq<nat>)
    requires names.Valid() && |NewKeys(names.table[..], keys)| <= FreeSlots(names.table[..], NAME_HASH_PRIME)
    modifies names.table
    ensures names.Valid() && |slots| == |keys|
    ensures forall a :: 0 <= a < |keys| ==> slots[a] < NAME_HASH_PRIME && names.table[slots[a]] == Some(keys[a])
    ensures forall a, b :: 0 <= a < |keys| && 0 <= b < |keys| ==> (slots[a] == slots[b] <==> keys[a] == keys[b])
    ensures forall i :: 0 <= i < NAME_HASH_PRIME && old(names.table[i]).Some? ==> names.table[i] == old(names.table[i])
  {
    hide NewKeys, FreeSlots;
    slots := [];
    assert keys[0..] == keys;
    while |slots| < |keys|
      invariant names.Valid() && |slots| <= |keys|
      invariant |NewKeys(names.table[..], keys[|slots|..])| <= FreeSlots(names.table[..], NAME_HASH_PRIME)
      invariant forall a :: 0 <= a < |slots| ==> slots[a] < NAME_HASH_PRIME && names.table[slots[a]] == Some(keys[a])
      invariant forall i :: 0 <= i < NAME_HASH_PRIME && old(names.table[i]).Some? ==>
                names.table[i] == old(names.table[i])
    {
      ghost var t, rest := names.table[..], keys[|slots|..];
      NewIsRoom(names, rest);
      var probe := names.SearchName(keys[|slots|]);
      NewKeyTaken(t, names.table[..], rest, probe);
      slots := slots + [probe];
      assert rest[1..] == keys[|slots|..];
    }
    forall a, b | 0 <= a < |keys| && 0 <= b < |keys| ensures slots[a] == slots[b] <==> keys[a] == keys[b] {
      if keys[a] == keys[b] { names.StoredOnce(slots[a], slots[b]); }
    }
  }

  /** The next key is stored or there is a free slot for it. */
  lemma {:induction false} NewIsRoom(names: Names, keys: seq<Text>)
    requires names.Valid() && keys != []
    requires |NewKeys(names.table[..], keys)| <= FreeSlots(names.table[..], NAME_HASH_PRIME)
    ensures !names.Stored(keys[0]) ==> keys[0] in NewKeys(names.table[..], keys)
    ensures HasFree(names.table[..], NAME_HASH_PRIME) || names.Stored(keys[0])
  {
    hide FreeSlots;
    if !names.Stored(keys[0]) {
      assert keys[0] in NewKeys(names.table[..], keys);
      SomeFree(names.table[..], NAME_HASH_PRIME);
    }
  }
}
