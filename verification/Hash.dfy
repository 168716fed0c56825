/** The rolling hash of three bytes that keys the match chains: UPDATE_HASH. */
module Hash {
  import opened Bits

  const HASH_SIZE := 8192

  /** UPDATE_HASH with H_SHIFT 5 and HASH_MASK 0x1fff. */
  function Update(h: nat, c: nat): (r: nat)
    ensures r < HASH_SIZE
  {
    BitXor(h * 32, c) % HASH_SIZE
  }

  /** The hash of three consecutive bytes. */
  function Hash3(a: nat, b: nat, c: nat): (r: nat)
    ensures r < HASH_SIZE
  {
    Update(Update(Update(0, a), b), c)
  }

  /** The low k bits of an exclusive or depend on the low k bits of its operands only. */
  lemma {:induction false} XorMod(x: nat, y: nat, k: nat)
    ensures BitXor(x, y) % Pow2(k) == BitXor(x % Pow2(k), y % Pow2(k)) % Pow2(k)
    decreases k
  {
    if k > 0 {
      XorMod(x / 2, y / 2, k - 1);
      XorModStep(x, y, Pow2(k - 1));
    } else {
      Pow2Is1(BitXor(x, y));
      Pow2Is1(BitXor(x % Pow2(0), y % Pow2(0)));
    }
  }

  lemma {:induction false} XorModStep(x: nat, y: nat, p: nat)
    requires p > 0 && BitXor(x / 2, y / 2) % p == BitXor((x / 2) % p, (y / 2) % p) % p
    ensures BitXor(x, y) % (2 * p) == BitXor(x % (2 * p), y % (2 * p)) % (2 * p)
  {
    hide BitXor;
    var x', y' := x % (2 * p), y % (2 * p);
    ModHalf(x, p);
    ModHalf(y, p);
    HalfOf(x, (x / 2) % p);
    HalfOf(y, (y / 2) % p);
    XorStep(x, y);
    XorStep(x', y');
    ModHalf(BitXor(x, y), p);
    ModHalf(BitXor(x', y'), p);
  }

  lemma {:induction false} HalfOf(x: nat, h: nat)
    ensures (x % 2 + 2 * h) / 2 == h && (x % 2 + 2 * h) % 2 == x % 2
  {
  }

  lemma {:induction false} XorStep(x: nat, y: nat)
    ensures BitXor(x, y) / 2 == BitXor(x / 2, y / 2)
    ensures BitXor(x, y) % 2 == (if x % 2 != y % 2 then 1 else 0)
  {
    if x == 0 && y == 0 { assert BitXor(0, 0) == 0; }
  }

  lemma {:induction false} XorInjective(x: nat, c: nat, c': nat)
    requires BitXor(x, c) == BitXor(x, c')
    ensures c == c'
    decreases x + c + c'
  {
    XorStep(x, c);
    XorStep(x, c');
    if c > 0 || c' > 0 { XorInjective(x / 2, c / 2, c' / 2); }
  }

  lemma {:induction false} XorBound(x: nat, y: nat, k: nat)
    requires x < Pow2(k) && y < Pow2(k)
    ensures BitXor(x, y) < Pow2(k)
  {
    XorStep(x, y);
    if k > 0 { XorBound(x / 2, y / 2, k - 1); }
  }

  /** Hashes that agree on the low m bits agree on five more after an update. */
  lemma {:induction false} UpdateAgree(h: nat, h': nat, c: nat, m: nat, n: nat)
    requires h % Pow2(m) == h' % Pow2(m) && n <= m + 5 && n <= 13
    ensures Update(h, c) % Pow2(n) == Update(h', c) % Pow2(n)
  {
    hide BitXor;
    Pow2Values();
    ShiftAgree(h, h', m, n);
    XorMod(h * 32, c, n);
    XorMod(h' * 32, c, n);
    ModMod(BitXor(h * 32, c), n);
    ModMod(BitXor(h' * 32, c), n);
  }

  lemma {:induction false} ShiftAgree(h: nat, h': nat, m: nat, n: nat)
    requires h % Pow2(m) == h' % Pow2(m) && n <= m + 5
    ensures (h * 32) % Pow2(n) == (h' * 32) % Pow2(n)
  {
    hide Pow2;
    Pow2Is32();
    Pow2Add(m, 5);
    Pow2Add(n, m + 5 - n);
    var p, q, k := Pow2(m), Pow2(n), Pow2(m + 5 - n);
    assert n + (m + 5 - n) == m + 5;
    MultipleMod(h, p, q, k);
    MultipleMod(h', p, q, k);
  }

  lemma {:induction false} Pow2Is32()
    ensures Pow2(5) == 32
  {
    Pow2Values();
  }

  lemma {:induction false} MultipleMod(h: nat, p: nat, q: nat, k: nat)
    requires p > 0 && q > 0 && p * 32 == q * k
    ensures (h * 32) % q == ((h % p) * 32) % q
  {
    var a, r := h / p, h % p;
    DivMod(h, p);
    assert h * 32 == q * (k * a) + r * 32 by {
      assert (a * p) * 32 == a * (p * 32) == a * (q * k);
      assert a * (q * k) == q * (k * a);
    }
    var s, t := (r * 32) / q, (r * 32) % q;
    DivMod(r * 32, q);
    assert h * 32 == q * (k * a + s) + t by { assert q * (k * a + s) == q * (k * a) + s * q; }
    ModUnique(h * 32, q, k * a + s, t);
  }

  lemma {:induction false} ModMod(x: nat, n: nat)
    requires n <= 13
    ensures (x % 8192) % Pow2(n) == x % Pow2(n)
  {
    hide Pow2;
    Pow2Is8192();
    Pow2Add(n, 13 - n);
    var q, k := Pow2(n), Pow2(13 - n);
    var y := x % 8192;
    DivMod(x, 8192);
    DivMod(y, q);
    var a, b := x / 8192, y / q;
    assert x == q * (k * a + b) + y % q by {
      assert a * 8192 == q * (k * a);
      assert q * (k * a + b) == q * (k * a) + b * q;
    }
    ModUnique(x, q, k * a + b, y % q);
  }

  lemma {:induction false} Pow2Is8192()
    ensures Pow2(13) == 8192
  {
    Pow2Values();
  }

  /** After three updates the hash has forgotten what came before. */
  lemma {:induction false} Forgets(h: nat, a: nat, b: nat, c: nat)
    ensures Update(Update(Update(h, a), b), c) == Hash3(a, b, c)
  {
    hide Update, Pow2;
    UpdateAgree(h, 0, a, 0, 5) by { Pow2Is1(h); }
    UpdateAgree(Update(h, a), Update(0, a), b, 5, 10);
    UpdateAgree(Update(Update(h, a), b), Update(Update(0, a), b), c, 10, 13);
    Pow2Is8192();
  }

  lemma {:induction false} Pow2Is1(h: nat)
    ensures h % Pow2(0) == 0 % Pow2(0)
  {
  }

  /** Strings with the same hash and the same first two bytes have the same third byte. */
  lemma {:induction false} ThirdByte(a: nat, b: nat, c: nat, c': nat)
    requires c < 256 && c' < 256 && Hash3(a, b, c) == Hash3(a, b, c')
    ensures c == c'
  {
    hide BitXor;
    var x := Update(Update(0, a), b) * 32;
    Low8(x, c);
    Low8(x, c');
    XorInjective(x % 256, c, c');
  }

  lemma {:induction false} Pow2Is256()
    ensures Pow2(8) == 256
  {
    Pow2Values();
  }

  lemma {:induction false} SmallMod(v: nat, n: nat)
    requires v < n
    ensures v % n == v
  {
  }

  lemma {:induction false} Low8(x: nat, c: nat)
    requires c < 256
    ensures (BitXor(x, c) % HASH_SIZE) % 256 == BitXor(x % 256, c)
  {
    hide BitXor, Pow2;
    Pow2Is256();
    XorMod(x, c, 8);
    ModMod(BitXor(x, c), 8);
    XorBound(x % 256, c, 8);
    assert c % 256 == c;
    SmallMod(BitXor(x % 256, c), 256);
  }
}
