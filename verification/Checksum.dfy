/** The Internet checksum: 32-bit words summed in 64 bits and folded, against the one's complement sum
    of 16-bit words (section 2 of RFC 1071). */
module Checksum {
  import opened Bytes

  const M: int := 0xffff

  // ---------------------------------------------------------------- the code's sum

  /** The little-endian word of two bytes. */
  function Half(lo: byte, hi: byte): int {
    lo + 0x100 * hi
  }

  /** What the code adds up: 32-bit words, then a 16-bit word, then a byte. */
  function Sum32(data: seq<byte>): (r: nat)
    ensures r <= 0x4000_0000 * (|data| + 3)
  {
    if |data| >= 4 then Half(data[0], data[1]) + 0x1_0000 * Half(data[2], data[3]) + Sum32(data[4..])
    else if |data| >= 2 then Half(data[0], data[1]) + Sum32(data[2..])
    else if |data| == 1 then data[0]
    else 0
  }

  /** Adds the words of a buffer to a sum, which does not leave 64 bits. */
  method ChecksumAdd(sum: nat, data: seq<byte>) returns (r: nat)
    requires sum + 0x4000_0000 * (|data| + 3) < 0x1_0000_0000_0000_0000
    ensures r == sum + Sum32(data) < 0x1_0000_0000_0000_0000
  {
    r := sum;
    var (p, count) := (0, |data|);
    while count >= 4
      invariant 0 <= p && 0 <= count && p + count == |data| && r + Sum32(data[p..]) == sum + Sum32(data)
    {
      assert data[p..][4..] == data[p + 4..];
      r := r + (Half(data[p], data[p + 1]) + 0x1_0000 * Half(data[p + 2], data[p + 3]));
      p, count := p + 4, count - 4;
    }
    if count >= 2 {
      assert data[p..][2..] == data[p + 2..];
      r := r + Half(data[p], data[p + 1]);
      p, count := p + 2, count - 2;
    }
    assert r + Sum32(data[p..]) == sum + Sum32(data);
    if count > 0 {
      r := r + data[p];
    }
  }

  function Fold(sum: nat): (r: nat)
    ensures r <= M
    decreases sum
  {
    if sum <= M then sum else Fold(sum % 0x1_0000 + sum / 0x1_0000)
  }

  /** Folds the carries in and complements. */
  method ChecksumFinalize(sum: nat) returns (r: nat)
    ensures r == M - Fold(sum)
  {
    var s := sum;
    while s / 0x1_0000 > 0
      invariant Fold(s) == Fold(sum)
      decreases s
    {
      s := s % 0x1_0000 + s / 0x1_0000;
    }
    return M - s;
  }

  // ---------------------------------------------------------------- the reference sum

  /** 16-bit words, a last odd byte padded with zero. */
  function Words16(data: seq<byte>): seq<int> {
    if |data| >= 2 then [Half(data[0], data[1])] + Words16(data[2..])
    else if |data| == 1 then [Half(data[0], 0)]
    else []
  }

  /** Addition with end-around carry. */
  function OnesAdd(a: int, b: int): int {
    if a + b > M then a + b - M else a + b
  }

  function OnesSum(ws: seq<int>): int {
    if ws == [] then 0 else OnesAdd(ws[0], OnesSum(ws[1..]))
  }

  /** The plain sum of the 16-bit words. */
  function Sum16(data: seq<byte>): (r: nat) {
    if |data| >= 2 then Half(data[0], data[1]) + Sum16(data[2..])
    else if |data| == 1 then Half(data[0], 0)
    else 0
  }

  // ---------------------------------------------------------------- residues

  /** `r` is what is left of `s` when multiples of 65535 are taken away, except that only nothing
      leaves nothing. */
  predicate Residue(s: int, r: int) {
    0 <= r <= M && (r == 0 <==> s == 0) && (s - r) % M == 0
  }

  lemma ResidueUnique(s: int, r: int, r': int)
    requires Residue(s, r) && Residue(s, r')
    ensures r == r'
  {
  }

  /** Residues depend on the sum only up to multiples of 65535. */
  lemma ResidueShift(s: int, s': int, r: int)
    requires Residue(s, r) && (s - s') % M == 0 && (s == 0 <==> s' == 0)
    ensures Residue(s', r)
  {
  }

  lemma {:induction false} FoldResidue(s: nat)
    ensures Residue(s, Fold(s))
    decreases s
  {
    hide Residue;
    if s > M {
      var q := s / 0x1_0000;
      FoldResidue(s % 0x1_0000 + q);
      ResidueCarry(s % 0x1_0000 + q, q, Fold(s));
    } else {
      ResidueSmall(s);
    }
  }

  lemma ResidueSmall(s: nat)
    requires s <= M
    ensures Residue(s, s)
  {
  }

  lemma ResidueCarry(s: int, q: int, r: int)
    requires Residue(s, r) && s > 0 && q >= 0
    ensures Residue(s + M * q, r)
  {
    var k := (s - r) / M;
    assert s + M * q - r == M * (k + q);
    assert M * (k + q) % M == 0;
  }

  lemma {:induction false} OnesResidue(data: seq<byte>)
    ensures Residue(Sum16(data), OnesSum(Words16(data)))
    decreases |data|
  {
    if |data| >= 2 {
      OnesResidue(data[2..]);
      assert Words16(data)[1..] == Words16(data[2..]);
      ResidueAdd(Half(data[0], data[1]), Sum16(data[2..]), OnesSum(Words16(data[2..])));
    } else if |data| == 1 {
      assert Words16(data)[1..] == [];
    }
  }

  lemma ResidueAdd(a: int, s: int, r: int)
    requires 0 <= a <= M && 0 <= s && Residue(s, r)
    ensures Residue(a + s, OnesAdd(a, r))
  {
  }

  /** 32-bit words and 16-bit words add up to the same, up to multiples of 65535. */
  lemma {:induction false} SumsAgree(data: seq<byte>)
    ensures (Sum32(data) - Sum16(data)) % M == 0 && (Sum32(data) == 0 <==> Sum16(data) == 0)
    decreases |data|
  {
    if |data| >= 4 {
      SumsAgree(data[4..]);
      assert data[2..][2..] == data[4..];
      assert Sum16(data) == Half(data[0], data[1]) + (Half(data[2], data[3]) + Sum16(data[4..]));
      Carry(Half(data[0], data[1]), Half(data[2], data[3]), Sum32(data[4..]), Sum16(data[4..]));
    } else if |data| >= 2 {
      SumsAgree(data[2..]);
    }
  }

  lemma Carry(a: int, b: int, x: int, y: int)
    requires (x - y) % M == 0
    ensures (a + 0x1_0000 * b + x - (a + (b + y))) % M == 0
  {
    assert a + 0x1_0000 * b + x - (a + (b + y)) == M * b + (x - y);
  }

  /** The fast sum is the complement of the one's complement sum of the 16-bit words. */
  lemma SameChecksum(data: seq<byte>)
    ensures M - Fold(Sum32(data)) == M - OnesSum(Words16(data))
  {
    hide Sum32, Sum16, Fold, OnesSum, Residue;
    FoldResidue(Sum32(data));
    OnesResidue(data);
    SumsAgree(data);
    ResidueShift(Sum32(data), Sum16(data), Fold(Sum32(data)));
    ResidueUnique(Sum16(data), Fold(Sum32(data)), OnesSum(Words16(data)));
  }

  // ---------------------------------------------------------------- byte order

  function Swap(x: int): int {
    x % 0x100 * 0x100 + x / 0x100
  }

  /** The words as the network orders their bytes. */
  function NetworkWords(data: seq<byte>): seq<int> {
    if |data| >= 2 then [Half(data[1], data[0])] + NetworkWords(data[2..])
    else if |data| == 1 then [Half(0, data[0])]
    else []
  }

  function NetworkSum(data: seq<byte>): nat {
    if |data| >= 2 then Half(data[1], data[0]) + NetworkSum(data[2..])
    else if |data| == 1 then Half(0, data[0])
    else 0
  }

  lemma {:induction false} NetworkResidue(data: seq<byte>)
    ensures Residue(NetworkSum(data), OnesSum(NetworkWords(data)))
    ensures (NetworkSum(data) - 0x100 * Sum16(data)) % M == 0 && (NetworkSum(data) == 0 <==> Sum16(data) == 0)
    decreases |data|
  {
    if |data| >= 2 {
      NetworkResidue(data[2..]);
      assert NetworkWords(data)[1..] == NetworkWords(data[2..]);
      ResidueAdd(Half(data[1], data[0]), NetworkSum(data[2..]), OnesSum(NetworkWords(data[2..])));
      SwapTerm(data[0], data[1], NetworkSum(data[2..]), Sum16(data[2..]));
    } else if |data| == 1 {
      assert NetworkWords(data)[1..] == [];
    }
  }

  lemma SwapTerm(lo: byte, hi: byte, n: int, s: int)
    requires (n - 0x100 * s) % M == 0
    ensures (Half(hi, lo) + n - 0x100 * (Half(lo, hi) + s)) % M == 0
  {
    var x: int := hi;
    assert Half(hi, lo) + n - 0x100 * (Half(lo, hi) + s) == (n - 0x100 * s) - M * x;
  }

  lemma SwapResidue(s: int, n: int, r: int)
    requires Residue(s, r) && (n - 0x100 * s) % M == 0 && (n == 0 <==> s == 0)
    ensures Residue(n, Swap(r))
  {
    assert Swap(r) == 0x100 * r - M * (r / 0x100);
    assert n - Swap(r) == (n - 0x100 * s) + 0x100 * (s - r) + M * (r / 0x100);
    var k := (s - r) / M;
    assert s - r == M * k && 0x100 * (s - r) == M * (0x100 * k);
  }

  /** Summed and stored in the host's byte order, the checksum has the bytes it would have in the
      network's. */
  lemma ByteOrderIndependent(data: seq<byte>)
    ensures Swap(M - Fold(Sum32(data))) == M - OnesSum(NetworkWords(data))
  {
    hide Sum32, Sum16, Fold, OnesSum, Residue, NetworkSum;
    SameChecksum(data);
    OnesResidue(data);
    NetworkResidue(data);
    SwapResidue(Sum16(data), NetworkSum(data), OnesSum(Words16(data)));
    ResidueUnique(NetworkSum(data), Swap(OnesSum(Words16(data))), OnesSum(NetworkWords(data)));
    SwapComplement(data);
  }

  lemma SwapComplement(data: seq<byte>)
    ensures Swap(M - OnesSum(Words16(data))) == M - Swap(OnesSum(Words16(data)))
  {
    hide Swap, OnesSum;
    OnesResidue(data);
    SwapNot(OnesSum(Words16(data)));
  }

  lemma SwapNot(x: nat)
    requires x <= M
    ensures Swap(M - x) == M - Swap(x)
  {
    var (h, l) := (x / 0x100, x % 0x100);
    assert M - x == 0x100 * (255 - h) + (255 - l);
    assert (M - x) / 0x100 == 255 - h && (M - x) % 0x100 == 255 - l;
  }

  /** The worked example of section 3 of RFC 1071. */
  lemma WorkedExample()
    ensures OnesSum(NetworkWords([0x00, 0x01, 0xf2, 0x03, 0xf4, 0xf5, 0xf6, 0xf7])) == 0xddf2
  {
    var data: seq<byte> := [0x00, 0x01, 0xf2, 0x03, 0xf4, 0xf5, 0xf6, 0xf7];
    assert data[2..] == [0xf2, 0x03, 0xf4, 0xf5, 0xf6, 0xf7] && data[4..] == [0xf4, 0xf5, 0xf6, 0xf7];
    assert data[2..][2..] == data[4..] && data[4..][2..] == data[6..] && data[6..][2..] == data[8..];
    assert NetworkWords(data[8..]) == [];
    assert NetworkWords(data[6..]) == [0xf6f7];
    assert NetworkWords(data[4..]) == [0xf4f5] + [0xf6f7];
    assert NetworkWords(data[2..]) == [0xf203] + ([0xf4f5] + [0xf6f7]);
    var ws := [0x0001, 0xf203, 0xf4f5, 0xf6f7];
    assert NetworkWords(data) == ws;
    assert ws[1..][1..] == ws[2..] && ws[2..][1..] == ws[3..] && ws[3..][1..] == [];
    assert OnesSum(ws[3..]) == 0xf6f7 && OnesSum(ws[2..]) == 0xebed && OnesSum(ws[1..]) == 0xddf1;
  }

  // ---------------------------------------------------------------- verifying

  /** The buffer with a 16-bit word stored in the host's byte order. */
  function Stored(data: seq<byte>, at: nat, c: int): seq<byte>
    requires at + 2 <= |data| && 0 <= c <= M
  {
    data[at := c % 0x100][at + 1 := c / 0x100]
  }

  lemma {:induction false} StoredSum(data: seq<byte>, at: nat, c: int)
    requires at % 2 == 0 && at + 2 <= |data| && data[at] == 0 && data[at + 1] == 0 && 0 <= c <= M
    ensures Sum16(Stored(data, at, c)) == Sum16(data) + c
    decreases |data|
  {
    var s := Stored(data, at, c);
    if at == 0 {
      assert s[2..] == data[2..];
    } else {
      assert s[2..] == Stored(data[2..], at - 2, c);
      StoredSum(data[2..], at - 2, c);
    }
  }

  /** A buffer whose zeroed check field received its checksum has checksum zero, whatever else was
      added to the sum. */
  lemma Verifies(data: seq<byte>, at: nat, extra: nat)
    requires at % 2 == 0 && at + 2 <= |data| && data[at] == 0 && data[at + 1] == 0
    ensures var c := M - Fold(extra + Sum32(data)); M - Fold(extra + Sum32(Stored(data, at, c))) == 0
  {
    hide Sum32, Sum16, Fold, Residue, Stored;
    var c := M - Fold(extra + Sum32(data));
    var data' := Stored(data, at, c);
    StoredSum(data, at, c);
    SumsAgree(data);
    SumsAgree(data');
    FoldResidue(extra + Sum32(data));
    FoldResidue(extra + Sum32(data'));
    FullResidue(extra + Sum32(data), extra + Sum32(data'), Fold(extra + Sum32(data)), Fold(extra + Sum32(data')), c,
                Sum32(data) - Sum16(data), Sum32(data') - Sum16(data'));
  }

  lemma FullResidue(s: int, s': int, r: int, r': int, c: int, d: int, d': int)
    requires Residue(s, r) && Residue(s', r') && c == M - r && d % M == 0 && d' % M == 0
    requires s' - s == c + d' - d && 0 <= s && 0 <= s'
    requires s' == 0 ==> s == 0 && c == 0
    ensures r' == M
  {
    var (a, b, e) := ((s - r) / M, d' / M, d / M);
    assert s - r == a * M && d' == b * M && d == e * M;
    assert s' == (a + 1 + b - e) * M;
    MultipleResidue(s', a + 1 + b - e, r');
  }

  lemma MultipleResidue(s: int, k: int, r: int)
    requires Residue(s, r) && s == k * M && s > 0
    ensures r == M
  {
    var j := (s - r) / M;
    assert r == (k - j) * M;
  }

  // ---------------------------------------------------------------- headers

  const IPPROTO_UDP: nat := 17

  /** The checksum of an IPv4 header, as a number and in the network's byte order; stored in the header it
      makes the checksum zero. */
  method Ipv4Checksum(header: seq<byte>) returns (c: nat)
    requires |header| < U32
    ensures c == M - OnesSum(Words16(header)) && Swap(c) == M - OnesSum(NetworkWords(header))
    ensures |header| >= 12 && header[10] == 0 && header[11] == 0 ==>
              0 <= c <= M && M - OnesSum(Words16(Stored(header, 10, c))) == 0
  {
    hide Sum32, OnesSum, Fold, Stored, Swap, Words16, NetworkWords;
    var sum := ChecksumAdd(0, header);
    c := ChecksumFinalize(sum);
    SameChecksum(header);
    ByteOrderIndependent(header);
    if |header| >= 12 && header[10] == 0 && header[11] == 0 {
      Verifies(header, 10, 0);
      SameChecksum(Stored(header, 10, c));
    }
  }

  /** A 32-bit number as it lies in memory. */
  function Le32(x: nat): (s: seq<byte>)
    requires x < U32
    ensures |s| == 4
  {
    [x % 0x100, x / 0x100 % 0x100, x / 0x1_0000 % 0x100, x / 0x100_0000]
  }

  /** The pseudo-header of RFC 768: source, destination, zero, the protocol number of UDP and the length, which
      has 16 bits. The addresses are kept in the network's byte order. */
  function PseudoHeader(dest: nat, src: nat, len: nat): (s: seq<byte>)
    requires dest < U32 && src < U32
    ensures |s| == 12
  {
    Le32(src) + Le32(dest) + [0, 17, len / 0x100 % 0x100, len % 0x100]
  }

  /** The checksum of a datagram is that of the pseudo-header followed by the datagram, as a number and in the
      network's byte order; stored in the datagram it makes the checksum zero. */
  method UdpChecksum(datagram: seq<byte>, dest: nat, src: nat) returns (c: nat)
    requires |datagram| < U32 && dest < U32 && src < U32
    ensures var data := PseudoHeader(dest, src, |datagram|) + datagram;
            c == M - OnesSum(Words16(data)) && Swap(c) == M - OnesSum(NetworkWords(data))
    ensures |datagram| >= 8 && datagram[6] == 0 && datagram[7] == 0 ==>
              && 0 <= c <= M
              && M - OnesSum(Words16(PseudoHeader(dest, src, |datagram|) + Stored(datagram, 6, c))) == 0
  {
    hide Sum32, OnesSum, Fold, Stored, Swap, PseudoHeader, Words16, NetworkWords;
    ghost var len := |datagram|;
    ghost var pseudo := PseudoHeader(dest, src, len);
    SwapRange(IPPROTO_UDP);
    SwapRange(len % 0x1_0000);
    var sum := ChecksumAdd(0, datagram);
    sum := sum + src % 0x1_0000;
    sum := sum + src / 0x1_0000;
    sum := sum + dest % 0x1_0000;
    sum := sum + dest / 0x1_0000;
    sum := sum + Swap(IPPROTO_UDP);
    sum := sum + Swap(|datagram| % 0x1_0000);
    c := ChecksumFinalize(sum);
    PseudoTotal(dest, src, len);
    Behind(pseudo, datagram);
    SameChecksum(pseudo + datagram);
    ByteOrderIndependent(pseudo + datagram);
    if |datagram| >= 8 && datagram[6] == 0 && datagram[7] == 0 {
      Verifies(datagram, 6, Sum16(pseudo));
      Behind(pseudo, Stored(datagram, 6, c));
    }
  }

  lemma SwapRange(x: nat)
    requires x <= M
    ensures 0 <= Swap(x) <= M
  {
  }

  lemma PseudoTotal(dest: nat, src: nat, len: nat)
    requires dest < U32 && src < U32
    ensures Sum16(PseudoHeader(dest, src, len)) ==
            src % 0x1_0000 + src / 0x1_0000 + dest % 0x1_0000 + dest / 0x1_0000
            + Swap(IPPROTO_UDP) + Swap(len % 0x1_0000)
  {
    hide Swap, Sum16, Le32;
    var tail := [0, 17, len / 0x100 % 0x100, len % 0x100];
    Sum16Concat(Le32(src) + Le32(dest), tail);
    Sum16Concat(Le32(src), Le32(dest));
    Le32Sum(src);
    Le32Sum(dest);
    TailSum(len);
  }

  lemma Le32Sum(x: nat)
    requires x < U32
    ensures Sum16(Le32(x)) == x % 0x1_0000 + x / 0x1_0000
  {
    var s := Le32(x);
    TwoWords(s[0], s[1], s[2], s[3]);
    LowHalf(x);
    assert x / 0x1_0000 / 0x100 == x / 0x100_0000;
  }

  lemma TailSum(len: nat)
    ensures Sum16([0, 17, len / 0x100 % 0x100, len % 0x100]) == Swap(IPPROTO_UDP) + Swap(len % 0x1_0000)
  {
    var (h, l) := (len / 0x100 % 0x100, len % 0x100);
    LowHalf(len);
    SwapBytes(h, l);
    TwoWords(0, 17, h, l);
  }

  lemma TwoWords(a: byte, b: byte, c: byte, d: byte)
    ensures Sum16([a, b, c, d]) == Half(a, b) + Half(c, d)
  {
    var s := [a, b, c, d];
    assert s[2..] == [c, d] && [c, d][2..] == [];
    assert Sum16([c, d]) == Half(c, d) + Sum16([]);
  }

  lemma SwapBytes(h: byte, l: byte)
    ensures Swap(0x100 * h + l) == Half(h, l)
  {
    var x: int := 0x100 * h + l;
    assert x / 0x100 == h && x % 0x100 == l;
  }

  lemma LowHalf(len: nat)
    ensures len % 0x1_0000 == 0x100 * (len / 0x100 % 0x100) + len % 0x100
  {
    var (q, l) := (len / 0x100, len % 0x100);
    var (p, h) := (q / 0x100, q % 0x100);
    assert len == 0x1_0000 * p + (0x100 * h + l);
  }

  lemma {:induction false} Sum16Concat(a: seq<byte>, b: seq<byte>)
    requires |a| % 2 == 0
    ensures Sum16(a + b) == Sum16(a) + Sum16(b)
    decreases |a|
  {
    if a == [] {
      assert a + b == b;
    } else {
      assert (a + b)[2..] == a[2..] + b;
      Sum16Concat(a[2..], b);
    }
  }

  /** The words of whole words in front may as well be added beforehand. */
  lemma Behind(front: seq<byte>, data: seq<byte>)
    requires |front| % 2 == 0
    ensures Fold(Sum16(front) + Sum32(data)) == OnesSum(Words16(front + data))
  {
    hide Sum32, Sum16, Fold, OnesSum, Residue, Words16;
    OnesResidue(front + data);
    Sum16Concat(front, data);
    SumsAgree(data);
    FoldResidue(Sum16(front) + Sum32(data));
    ResidueShift(Sum16(front) + Sum32(data), Sum16(front + data), Fold(Sum16(front) + Sum32(data)));
    ResidueUnique(Sum16(front + data), Fold(Sum16(front) + Sum32(data)), OnesSum(Words16(front + data)));
  }
}
