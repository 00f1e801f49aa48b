/** 64-bit words and the numbers they stand for. */
module Words {

  function Pow2(k: nat): (r: nat)
    ensures r > 0
  {
    if k == 0 then 1 else 2 * Pow2(k - 1)
  }

  // ---------------------------------------------------------------- bits

  /** The word with `b` behind the bits of `x`. */
  function Push(x: bv64, b: bool): bv64 {
    if b then (x << 1) | 1 else x << 1
  }

  function Or(x: bv64, y: bv64): bv64 {
    x | y
  }

  predicate Within(x: bv64, mask: bv64) {
    x & !mask == 0
  }

  predicate Clear(x: bv64, mask: bv64) {
    x & mask == 0
  }

  /** The word of `k` low ones. */
  function Low(k: nat): bv64 {
    if k == 0 then 0 else Push(Low(k - 1), true)
  }

  /** The word that stands for a number modulo 2^64. */
  function W(n: nat): bv64 {
    if n == 0 then 0 else Push(W(n / 2), n % 2 == 1)
  }

  /** The number a word stands for, from its low `k` bits. */
  function Value(w: bv64, k: nat): nat {
    if k == 0 then 0 else 2 * Value(Shr(w), k - 1) + if Odd(w) then 1 else 0
  }

  function Shr(w: bv64): bv64 {
    w >> 1
  }

  predicate Odd(w: bv64) {
    w & 1 == 1
  }

  lemma PushZero()
    ensures Push(0, false) == 0 && Within(0, 0)
  {
  }

  lemma PushWithin(x: bv64, mask: bv64, b: bool)
    requires Within(x, mask)
    ensures Within(Push(x, b), Push(mask, true))
  {
    hide Within, Push;
    if b {
      WithinOne(x, mask);
    } else {
      WithinZero(x, mask);
    }
  }

  lemma WithinOne(x: bv64, m: bv64)
    requires Within(x, m)
    ensures Within(Push(x, true), Push(m, true))
  {
    OneOut(x << 1, m << 1);
    NoneShifted(x, m);
  }

  lemma WithinZero(x: bv64, m: bv64)
    requires Within(x, m)
    ensures Within(Push(x, false), Push(m, true))
  {
    NoneShifted(x, m);
  }

  lemma NoneShifted(x: bv64, m: bv64)
    requires x & !m == 0
    ensures (x << 1) & !((m << 1) | 1) == 0
  {
    NotPush(m);
    AndShift(x, !m);
  }

  lemma NotPush(m: bv64)
    ensures !((m << 1) | 1) == !m << 1
  {
  }

  lemma AndShift(x: bv64, y: bv64)
    ensures (x << 1) & (y << 1) == (x & y) << 1
  {
  }

  lemma OneOut(x: bv64, m: bv64)
    ensures (x | 1) & !(m | 1) == x & !(m | 1)
  {
  }

  lemma PushOr(x: bv64, y: bv64, b: bool)
    ensures Push(Or(x, y), b) == Or(Push(x, false), Push(y, b))
  {
    hide Or;
    if b {
      PushOrOne(x, y);
    } else {
      PushOrZero(x, y);
    }
  }

  lemma PushOrOne(x: bv64, y: bv64)
    ensures (Or(x, y) << 1) | 1 == Or(x << 1, (y << 1) | 1)
  {
    hide Or;
    OrIs(x, y, x | y);
    OneBits(x, y, Or(x, y));
    OrIs(x << 1, (y << 1) | 1, (Or(x, y) << 1) | 1);
  }

  lemma PushOrZero(x: bv64, y: bv64)
    ensures Or(x, y) << 1 == Or(x << 1, y << 1)
  {
    hide Or;
    OrIs(x, y, x | y);
    ZeroBits(x, y, Or(x, y));
    OrIs(x << 1, y << 1, Or(x, y) << 1);
  }

  lemma OrIs(x: bv64, y: bv64, z: bv64)
    requires z == x | y
    ensures z == Or(x, y)
  {
  }

  lemma OneBits(x: bv64, y: bv64, z: bv64)
    requires z == x | y
    ensures (z << 1) | 1 == (x << 1) | ((y << 1) | 1)
  {
  }

  lemma ZeroBits(x: bv64, y: bv64, z: bv64)
    requires z == x | y
    ensures z << 1 == (x << 1) | (y << 1)
  {
  }

  lemma PushClear(x: bv64, mask: bv64)
    requires Clear(x, mask)
    ensures Clear(Push(x, false), Push(mask, true))
  {
  }

  lemma ShrWithin(w: bv64, mask: bv64)
    requires Within(w, Push(mask, true))
    ensures Within(Shr(w), mask)
  {
    ShrBits(w, mask);
  }

  lemma ShrBits(w: bv64, l: bv64)
    requires w & !((l << 1) | 1) == 0
    ensures (w >> 1) & !l == 0
  {
    assert (w & !((l << 1) | 1)) >> 1 == (w >> 1) & !((l << 1) >> 1);
  }

  lemma PushShr(w: bv64)
    ensures Push(Shr(w), Odd(w)) == w
  {
  }

  lemma ShrPush(x: bv64, b: bool)
    requires Within(x, 0xffff_ffff_ffff)
    ensures Shr(Push(x, b)) == x && Odd(Push(x, b)) == b
  {
  }

  lemma OrZero(x: bv64)
    ensures Or(x, 0) == x && Clear(x, 0) && (Within(x, 0) ==> x == 0)
  {
  }

  // ---------------------------------------------------------------- numbers

  lemma WStep(n: nat)
    ensures W(n) == Push(W(n / 2), n % 2 == 1)
  {
    hide Push;
    PushZero();
  }

  /** A number below 2^k uses the low `k` bits. */
  lemma {:induction false} Small(n: nat, k: nat)
    requires n < Pow2(k)
    ensures Within(W(n), Low(k))
  {
    hide W, Push, Within;
    WStep(n);
    if k == 0 {
      WZero();
      PushZero();
    } else {
      Small(n / 2, k - 1);
      PushWithin(W(n / 2), Low(k - 1), n % 2 == 1);
    }
  }

  lemma WZero()
    ensures W(0) == 0
  {
  }

  /** Numbers side by side are words side by side. */
  lemma {:induction false} Split(a: nat, k: nat, l: nat)
    requires l < Pow2(k)
    ensures W(a * Pow2(k) + l) == Or(W(a * Pow2(k)), W(l)) && Clear(W(a * Pow2(k)), Low(k))
  {
    hide W, Push, Or, Clear;
    if k == 0 {
      WZero();
      OrZero(W(a));
    } else {
      Halve(a, Pow2(k - 1), l);
      Halve(a, Pow2(k - 1), 0);
      Split(a, k - 1, l / 2);
      WStep(a * Pow2(k) + l);
      WStep(a * Pow2(k));
      WStep(l);
      PushOr(W(a * Pow2(k - 1)), W(l / 2), l % 2 == 1);
      PushClear(W(a * Pow2(k - 1)), Low(k - 1));
    }
  }

  lemma Halve(a: nat, p: nat, l: nat)
    ensures (a * (2 * p) + l) / 2 == a * p + l / 2 && (a * (2 * p) + l) % 2 == l % 2
  {
    assert a * (2 * p) == 2 * (a * p);
  }

  /** Every word stands for a number. */
  lemma {:induction false} WValue(w: bv64, k: nat)
    requires Within(w, Low(k))
    ensures W(Value(w, k)) == w && Value(w, k) < Pow2(k)
    decreases k
  {
    hide W, Push, Within, Odd, Shr;
    if k == 0 {
      WZero();
      OrZero(w);
    } else {
      ShrWithin(w, Low(k - 1));
      WValue(Shr(w), k - 1);
      WStep(Value(w, k));
      PushShr(w);
    }
  }

  /** Different numbers below 2^48 are different words. */
  lemma {:induction false} Injective(m: nat, n: nat)
    requires m < 0x1_0000_0000_0000 && n < 0x1_0000_0000_0000 && W(m) == W(n)
    ensures m == n
    decreases m + n
  {
    hide W, Low, Pow2, Push, Within, Odd, Shr;
    if m != 0 || n != 0 {
      WStep(m);
      WStep(n);
      Pows();
      Lows();
      Small(m / 2, 48);
      Small(n / 2, 48);
      ShrPush(W(m / 2), m % 2 == 1);
      ShrPush(W(n / 2), n % 2 == 1);
      Injective(m / 2, n / 2);
    }
  }

  // ---------------------------------------------------------------- the sizes paging uses

  lemma Lows()
    ensures Low(12) == 0xfff && Low(21) == 0x1f_ffff && Low(48) == 0xffff_ffff_ffff
    ensures Low(52) == 0xf_ffff_ffff_ffff && Low(64) == 0xffff_ffff_ffff_ffff
  {
    assert Low(2) == 3 && Low(4) == 0xf && Low(6) == 0x3f && Low(8) == 0xff && Low(10) == 0x3ff && Low(12) == 0xfff;
    assert Low(14) == 0x3fff && Low(16) == 0xffff && Low(18) == 0x3_ffff && Low(20) == 0xf_ffff && Low(22) == 0x3f_ffff;
    assert Low(24) == 0xff_ffff && Low(26) == 0x3ff_ffff && Low(28) == 0xfff_ffff && Low(30) == 0x3fff_ffff;
    assert Low(32) == 0xffff_ffff && Low(34) == 0x3_ffff_ffff && Low(36) == 0xf_ffff_ffff && Low(38) == 0x3f_ffff_ffff;
    assert Low(40) == 0xff_ffff_ffff && Low(42) == 0x3ff_ffff_ffff && Low(44) == 0xfff_ffff_ffff;
    assert Low(46) == 0x3fff_ffff_ffff && Low(48) == 0xffff_ffff_ffff && Low(50) == 0x3_ffff_ffff_ffff;
    assert Low(52) == 0xf_ffff_ffff_ffff && Low(54) == 0x3f_ffff_ffff_ffff && Low(56) == 0xff_ffff_ffff_ffff;
    assert Low(58) == 0x3ff_ffff_ffff_ffff && Low(60) == 0xfff_ffff_ffff_ffff && Low(62) == 0x3fff_ffff_ffff_ffff;
  }

  lemma Pows()
    ensures Pow2(12) == 0x1000 && Pow2(21) == 0x20_0000 && Pow2(48) == 0x1_0000_0000_0000
    ensures Pow2(52) == 0x10_0000_0000_0000 && Pow2(64) == 0x1_0000_0000_0000_0000
  {
    assert Pow2(2) == 4 && Pow2(4) == 16 && Pow2(6) == 64 && Pow2(8) == 256 && Pow2(10) == 1024;
    assert Pow2(22) == 0x40_0000 && Pow2(32) == 0x1_0000_0000 && Pow2(42) == 0x400_0000_0000;
  }
}
