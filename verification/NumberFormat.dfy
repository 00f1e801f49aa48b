/** Number formatting: digits are written from the end of a buffer towards its front. */
module NumberFormat {
  import opened Arith

  const S63: nat := 0x8000_0000_0000_0000
  const BUFFER: nat := 32

  const LOWER: string := "0123456789abcdef"
  const UPPER: string := "0123456789ABCDEF"

  // ---------------------------------------------------------------- digits

  /** The digits of a number, the most significant first. */
  function Digits(n: nat, base: nat): (ds: seq<nat>)
    requires base >= 2
    ensures |ds| >= 1 && forall i | 0 <= i < |ds| :: ds[i] < base
    decreases n
  {
    if n < base then [n]
    else
      DivSmaller(n, base);
      Digits(n / base, base) + [n % base]
  }

  /** The number digits stand for. */
  function Read(ds: seq<nat>, base: nat): nat {
    if ds == [] then 0 else Read(ds[..|ds| - 1], base) * base + ds[|ds| - 1]
  }

  /** Digits read back to the number they came from. */
  lemma {:induction false} ReadDigits(n: nat, base: nat)
    requires base >= 2
    ensures Read(Digits(n, base), base) == n
    decreases n
  {
    hide Read;
    if n < base {
      ReadOne(n, base);
    } else {
      DivSmaller(n, base);
      ReadDigits(n / base, base);
      ReadOneMore(Digits(n / base, base), n % base, base);
      DivMod(n, base);
    }
  }

  lemma ReadOne(d: nat, base: nat)
    ensures Read([d], base) == d
  {
    assert [d][..0] == [];
  }

  lemma ReadOneMore(ds: seq<nat>, d: nat, base: nat)
    ensures Read(ds + [d], base) == Read(ds, base) * base + d
  {
    assert (ds + [d])[..|ds|] == ds;
  }

  /** The first digit is zero only in zero itself. */
  lemma {:induction false} NoLeadingZero(n: nat, base: nat)
    requires base >= 2
    ensures Digits(n, base)[0] == 0 <==> n == 0
    ensures n == 0 ==> Digits(n, base) == [0]
    decreases n
  {
    if n >= base {
      NoLeadingZero(n / base, base);
      DivPositive(n, base);
    }
  }

  function Power(base: nat, k: nat): nat {
    if k == 0 then 1 else base * Power(base, k - 1)
  }

  /** A number below base^k has at most k digits. */
  lemma {:induction false} DigitCount(n: nat, base: nat, k: nat)
    requires base >= 2 && k >= 1 && n < Power(base, k)
    ensures |Digits(n, base)| <= k
    decreases k
  {
    if n >= base {
      Quotient(n, base, Power(base, k - 1));
      DigitCount(n / base, base, k - 1);
    }
  }

  lemma Quotient(n: nat, base: nat, p: nat)
    requires base > 0 && n < base * p
    ensures n / base < p
  {
  }

  /** A 64-bit number has at most 20 digits in base 10 or above. */
  lemma AtMostTwenty(n: nat, base: nat)
    requires n < U64 && base >= 10
    ensures |Digits(n, base)| <= 20
  {
    TenPower();
    PowerMonotone(10, base, 20);
    DigitCount(n, base, 20);
  }

  lemma TenPower()
    ensures U64 <= Power(10, 20)
  {
    assert Power(10, 4) == 10000;
    assert Power(10, 8) == 100000000;
    assert Power(10, 12) == 1000000000000;
    assert Power(10, 16) == 10000000000000000;
  }

  lemma {:induction false} PowerMonotone(a: nat, b: nat, k: nat)
    requires a <= b
    ensures Power(a, k) <= Power(b, k)
  {
    if k > 0 {
      PowerMonotone(a, b, k - 1);
      Products(a, b, Power(a, k - 1), Power(b, k - 1));
    }
  }

  lemma Products(a: nat, b: nat, x: nat, y: nat)
    requires a <= b && x <= y
    ensures a * x <= b * y
  {
    assert a * x <= a * y;
    assert (b - a) * y >= 0;
  }

  // ---------------------------------------------------------------- text

  function Chars(ds: seq<nat>, chars: string): (s: string)
    requires forall i | 0 <= i < |ds| :: ds[i] < |chars|
    ensures |s| == |ds|
  {
    seq(|ds|, i requires 0 <= i < |ds| => chars[ds[i]])
  }

  predicate Negative(n: nat, sign: bool) {
    sign && n >= S63
  }

  /** What is printed of a 64-bit word: it stands for a negative number if its top bit is set and a
      sign is wanted. */
  function Meaning(n: nat, sign: bool): int {
    if Negative(n, sign) then n - U64 else n
  }

  function Magnitude(n: nat, sign: bool): nat
    requires n < U64
  {
    if Negative(n, sign) then U64 - n else n
  }

  function Text(n: nat, base: nat, sign: bool, chars: string): string
    requires n < U64 && 2 <= base <= |chars|
  {
    (if Negative(n, sign) then "-" else "") + Chars(Digits(Magnitude(n, sign), base), chars)
  }

  /** Writes a number, a sign if wanted, and a terminator at the end of the buffer. */
  method FormatNumber(buf: array<char>, n: nat, chars: string, base: nat, sign: bool) returns (pos: nat)
    requires buf.Length == BUFFER && n < U64 && 10 <= base <= |chars|
    modifies buf
    ensures pos < BUFFER - 1 && buf[BUFFER - 1] == '\0' && buf[pos..BUFFER - 1] == Text(n, base, sign, chars)
  {
    hide Digits, Chars;
    var m: nat := n;
    if Negative(n, sign) {
      m := U64 - n;
    }
    buf[BUFFER - 1] := '\0';
    pos := WriteDigits(buf, m, chars, base);
    if Negative(n, sign) {
      pos := pos - 1;
      buf[pos] := '-';
      assert buf[pos..BUFFER - 1] == ['-'] + buf[pos + 1..BUFFER - 1];
    }
  }

  /** Writes the digits of a number in front of the last character, the last digit first. */
  method WriteDigits(buf: array<char>, n: nat, chars: string, base: nat) returns (pos: nat)
    requires buf.Length == BUFFER && n < U64 && 10 <= base <= |chars|
    modifies buf
    ensures 1 < pos < BUFFER - 1 && buf[BUFFER - 1] == old(buf[BUFFER - 1])
    ensures buf[pos..BUFFER - 1] == Chars(Digits(n, base), chars)
  {
    hide Digits, Chars;
    var m: nat := n;
    ghost var ds := Digits(n, base);
    ghost var k: nat := |ds|;
    AtMostTwenty(n, base);
    pos := BUFFER - 1;
    NoChars(chars);
    assert ds[k..] == [] && ds[..k] == ds;
    while m >= base
      invariant 1 <= k <= |ds| && pos == BUFFER - 1 - (|ds| - k) && Digits(m, base) == ds[..k]
      invariant buf[pos..BUFFER - 1] == Chars(ds[k..], chars) && buf[BUFFER - 1] == old(buf[BUFFER - 1])
      decreases m
    {
      var rest, digit := SplitDigit(m, base);
      DigitWritten(ds, k, Digits(rest, base), digit, chars);
      m := rest;
      pos := pos - 1;
      ghost var before := buf[..];
      buf[pos] := chars[digit];
      PutInFront(before, buf[..], pos, chars[digit]);
      k := k - 1;
    }
    FirstDigit(m, base);
    DigitWritten(ds, k, [], m, chars);
    pos := pos - 1;
    ghost var before := buf[..];
    buf[pos] := chars[m];
    PutInFront(before, buf[..], pos, chars[m]);
    assert ds[0..] == ds;
  }

  lemma PutInFront(before: seq<char>, after: seq<char>, pos: nat, c: char)
    requires |before| == BUFFER && pos < BUFFER - 1 && after == before[pos := c]
    ensures after[pos..BUFFER - 1] == [c] + before[pos + 1..BUFFER - 1]
  {
  }

  lemma NoChars(chars: string)
    ensures Chars([], chars) == []
  {
  }

  /** The digit in front of those written. */
  lemma DigitWritten(ds: seq<nat>, k: nat, front: seq<nat>, digit: nat, chars: string)
    requires 1 <= k <= |ds| && ds[..k] == front + [digit] && forall i | 0 <= i < |ds| :: ds[i] < |chars|
    ensures k == |front| + 1 && ds[..k - 1] == front && digit < |chars|
    ensures Chars(ds[k - 1..], chars) == [chars[digit]] + Chars(ds[k..], chars)
  {
    assert |ds[..k]| == k && ds[k - 1] == ds[..k][k - 1] == digit && ds[..k][..k - 1] == ds[..k - 1];
  }

  method SplitDigit(n: nat, base: nat) returns (rest: nat, digit: nat)
    requires n >= base >= 2
    ensures Digits(n, base) == Digits(rest, base) + [digit] && rest < n && digit < base
  {
    DivSmaller(n, base);
    rest, digit := n / base, n % base;
  }

  lemma FirstDigit(n: nat, base: nat)
    requires n < base && base >= 2
    ensures Digits(n, base) == [n]
  {
  }

  // ---------------------------------------------------------------- reading back

  function IndexIn(c: char, chars: string): nat {
    if chars == [] || chars[0] == c then 0 else 1 + IndexIn(c, chars[1..])
  }

  function Indices(s: string, chars: string): seq<nat> {
    seq(|s|, i requires 0 <= i < |s| => IndexIn(s[i], chars))
  }

  function ReadText(s: string, base: nat, chars: string): int {
    if s != [] && s[0] == '-' then 0 - Read(Indices(s[1..], chars), base) else Read(Indices(s, chars), base)
  }

  predicate IsAlphabet(chars: string) {
    '-' !in chars && forall i, j | 0 <= i < j < |chars| :: chars[i] != chars[j]
  }

  lemma Alphabets()
    ensures IsAlphabet(LOWER) && |LOWER| == 16 && IsAlphabet(UPPER) && |UPPER| == 16
    ensures forall k | 0 <= k < 10 :: LOWER[k] as int == '0' as int + k && UPPER[k] as int == '0' as int + k
    ensures forall k | 10 <= k < 16 ::
              LOWER[k] as int == 'a' as int + k - 10 && UPPER[k] as int == 'A' as int + k - 10
  {
  }

  lemma {:induction false} IndexOfChar(chars: string, k: nat)
    requires IsAlphabet(chars) && k < |chars|
    ensures IndexIn(chars[k], chars) == k
    decreases k
  {
    if k > 0 {
      assert chars[1..][k - 1] == chars[k];
      IndexOfChar(chars[1..], k - 1);
    }
  }

  /** The text reads back to the number that was printed, the most negative one included. */
  lemma TextReadsBack(n: nat, base: nat, sign: bool, chars: string)
    requires n < U64 && 2 <= base <= |chars| && IsAlphabet(chars)
    ensures ReadText(Text(n, base, sign, chars), base, chars) == Meaning(n, sign)
  {
    hide Digits, Read, IndexIn;
    var ds := Digits(Magnitude(n, sign), base);
    ReadDigits(Magnitude(n, sign), base);
    var s := Chars(ds, chars);
    forall i | 0 <= i < |ds| ensures IndexIn(s[i], chars) == ds[i] && s[i] != '-' {
      IndexOfChar(chars, ds[i]);
    }
    assert Indices(s, chars) == ds;
    if Negative(n, sign) {
      assert ("-" + s)[1..] == s;
    } else {
      assert "" + s == s;
    }
  }
}
