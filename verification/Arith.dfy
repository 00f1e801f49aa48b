/** Arithmetic that several components share. */
module Arith {

  const U64: nat := 0x1_0000_0000_0000_0000

  function AlignDown(x: nat, align: nat): nat
    requires align > 0
  {
    x - x % align
  }

  function AlignUp(x: nat, align: nat): nat
    requires align > 0
  {
    AlignDown(x + align - 1, align)
  }

  predicate Distinct<T(==)>(s: seq<T>) {
    forall i, j | 0 <= i < j < |s| :: s[i] != s[j]
  }

  lemma ModUnique(v: nat, q: nat, b: nat, r: nat)
    requires v == q * b + r && r < b
    ensures v % b == r
  {
    var d := v / b - q;
    assert d * b == r - v % b;
  }

  lemma DivUnique(q: nat, b: nat)
    requires b > 0
    ensures q * b / b == q
  {
    ModUnique(q * b, q, b, 0);
    Cancel(q * b / b, q, b);
  }

  lemma Cancel(x: int, y: int, b: nat)
    requires b > 0 && x * b == y * b
    ensures x == y
  {
    if x < y {
      Ordered(x, y, b);
    } else if y < x {
      Ordered(y, x, b);
    }
  }

  lemma Ordered(x: int, y: int, b: nat)
    requires x < y && b > 0
    ensures x * b < y * b
  {
    var k := y - x - 1;
    assert k * b >= 0;
    assert y * b == x * b + b + k * b;
  }

  lemma DivPositive(x: nat, b: nat)
    requires x >= b > 0
    ensures x / b > 0
  {
  }

  lemma DivSmaller(x: nat, b: nat)
    requires x > 0 && b >= 2
    ensures x / b < x
  {
    DivMod(x, b);
    Doubles(x / b, b);
  }

  lemma DivMod(x: nat, b: nat)
    requires b > 0
    ensures x == x / b * b + x % b
  {
  }

  lemma Doubles(q: nat, b: nat)
    requires b >= 2
    ensures q * b >= 2 * q
  {
    assert q * b == 2 * q + q * (b - 2);
  }

  /** Among `n` successive numbers there is one with each remainder. */
  lemma ModVisits(i: nat, n: nat, m: nat) returns (k: nat)
    requires m < n
    ensures i <= k < i + n && k % n == m
  {
    var r := i % n;
    k := if m >= r then i + (m - r) else i + n - r + m;
    ModUnique(k, if m >= r then i / n else i / n + 1, n, m);
  }

  lemma ModNext(n: nat, b: nat)
    requires b > 0
    ensures (n + 1) % b == if n % b + 1 == b then 0 else n % b + 1
  {
    var (q, r) := (n / b, n % b);
    if r + 1 == b {
      assert n + 1 == (q + 1) * b;
      ModUnique(n + 1, q + 1, b, 0);
    } else {
      ModUnique(n + 1, q, b, r + 1);
    }
  }

  /** Numbers less than `b` apart have different remainders. */
  lemma ModDiffers(m: nat, n: nat, b: nat)
    requires m < n < m + b
    ensures m % b != n % b
  {
    var d := n / b - m / b;
    assert n - m == d * b + (n % b - m % b);
    Multiple(d, b);
  }

  lemma Multiple(d: int, b: nat)
    ensures d * b <= 0 || d * b >= b
  {
    if d >= 1 {
      assert d * b == (d - 1) * b + b && (d - 1) * b >= 0;
    }
  }

  lemma ModSum(x: nat, y: nat, b: nat)
    requires b > 0 && x % b == 0 && y % b == 0
    ensures (x + y) % b == 0
  {
    assert x + y == (x / b + y / b) * b;
    ModUnique(x + y, x / b + y / b, b, 0);
  }

  lemma ModDifference(x: nat, y: nat, b: nat)
    requires b > 0 && x % b == 0 && y % b == 0 && y <= x
    ensures (x - y) % b == 0
  {
    assert x - y == (x / b - y / b) * b;
    ModUnique(x - y, x / b - y / b, b, 0);
  }

  /** The remainder by a divisor of a modulus. */
  lemma ModOfMod(v: nat, c: nat, b: nat, m: nat)
    requires c > 0 && b > 0 && m == c * b && m > 0
    ensures v % m == v % m / b * b + v % b
  {
    DivMod(v, m);
    DivMod(v % m, b);
    ModPart(v, v / m, v % m, c, b);
  }

  lemma ModPart(v: nat, q: nat, r: nat, c: nat, b: nat)
    requires b > 0 && v == q * (c * b) + r
    ensures v % b == r % b
  {
    DivMod(r, b);
    Regroup(q, c, r / b, b);
    ModUnique(v, q * c + r / b, b, r % b);
  }

  lemma Regroup(q: nat, c: nat, d: nat, b: nat)
    ensures (q * c + d) * b == q * (c * b) + d * b
  {
  }

  /** Multiples of `m` are the same exactly if one lies less than `m` above the other. */
  lemma SameMultiple(x: nat, y: nat, l: nat, m: nat)
    requires l < m && x % m == 0 && y % m == 0
    ensures x == y <==> y <= x + l < y + m
  {
    var (a, b) := (x / m, y / m);
    DivMod(x, m);
    DivMod(y, m);
    if a < b {
      Apart(a, b, m);
    } else if b < a {
      Apart(b, a, m);
    }
  }

  /** What rounding down to a multiple gives. */
  lemma RoundsDown(x: nat, b: nat)
    requires b > 0
    ensures AlignDown(x, b) <= x < AlignDown(x, b) + b && AlignDown(x, b) % b == 0
    ensures x % b == 0 <==> AlignDown(x, b) == x
  {
    DivMod(x, b);
    ModUnique(x - x % b, x / b, b, 0);
  }

  lemma Apart(a: nat, b: nat, size: nat)
    requires a < b
    ensures a * size + size <= b * size
  {
    var k := b - a - 1;
    assert k * size >= 0;
    assert b * size == a * size + size + k * size;
  }
}
