/** Bytes, big-endian 32-bit cells and NUL-terminated strings, as the device tree blob stores them. */
module Bytes {

  type byte = x: int | 0 <= x < 256

  datatype Option<+T> = None | Some(value: T)

  const U32: int := 0x1_0000_0000

  /** The big-endian bytes of a 32-bit cell. */
  function Be32(x: int): (s: seq<byte>)
    requires 0 <= x < U32
    ensures |s| == 4 && U32At(s, 0) == x
  {
    var (x1, x2, x3) := (x / 0x100, x / 0x100 / 0x100, x / 0x100 / 0x100 / 0x100);
    [x3, x2 % 0x100, x1 % 0x100, x % 0x100]
  }

  /** The 32-bit cell stored big-endian at `i`. */
  function U32At(s: seq<byte>, i: int): (x: int)
    requires 0 <= i && i + 4 <= |s|
    ensures 0 <= x < U32
  {
    var (b0: int, b1: int, b2: int, b3: int) := (s[i], s[i + 1], s[i + 2], s[i + 3]);
    b0 * 0x100_0000 + b1 * 0x1_0000 + b2 * 0x100 + b3
  }

  /** Rounds up to the 4-byte tag size. */
  function TagAlign(x: int): (r: int)
    ensures r % 4 == 0 && x <= r < x + 4
  {
    (x + 3) / 4 * 4
  }

  /** The offset just past the first NUL at or after `off`. */
  function NulEnd(s: seq<byte>, off: int): (r: Option<int>)
    requires 0 <= off
    ensures r.Some? ==> off < r.value <= |s| && s[r.value - 1] == 0
    ensures r.Some? ==> forall k | off <= k < r.value - 1 :: s[k] != 0
    ensures r.None? ==> forall k | off <= k < |s| :: s[k] != 0
    decreases |s| - off
  {
    if off >= |s| then None
    else if s[off] == 0 then Some(off + 1)
    else NulEnd(s, off + 1)
  }

  /** The NUL-terminated string stored at `off`, if there is one. */
  function CStr(s: seq<byte>, off: int): (r: Option<seq<byte>>)
    ensures r.Some? ==> 0 <= off && off + |r.value| < |s| && 0 !in r.value
    ensures r.Some? ==> s[off..off + |r.value| + 1] == r.value + [0]
  {
    if off < 0 then None
    else match NulEnd(s, off)
      case None => None
      case Some(e) => Some(s[off..e - 1])
  }

  /** What is found at an offset is the NUL-free string that is stored there with its terminator. */
  lemma CStrAt(s: seq<byte>, off: int, str: seq<byte>)
    requires 0 <= off && off + |str| < |s| && 0 !in str
    requires s[off..off + |str| + 1] == str + [0]
    ensures CStr(s, off) == Some(str)
  {
    var w := s[off..off + |str| + 1];
    assert forall k | off <= k < off + |str| :: s[k] == w[k - off] == str[k - off];
    assert s[off + |str|] == w[|str|] == 0;
    var e := NulEnd(s, off);
    assert e.Some?;
    assert e.value == off + |str| + 1;
    assert s[off..off + |str|] == str;
  }

  /** A string stays readable when bytes are put before or behind the block that holds it. */
  lemma CStrExtend(pre: seq<byte>, s: seq<byte>, post: seq<byte>, off: int)
    requires CStr(s, off).Some?
    ensures CStr(pre + s + post, |pre| + off) == CStr(s, off)
  {
    var str := CStr(s, off).value;
    var big := pre + s + post;
    assert big[|pre| + off..|pre| + off + |str| + 1] == s[off..off + |str| + 1];
    CStrAt(big, |pre| + off, str);
  }

  /** The `size` elements at `off`. */
  function Window<T>(s: seq<T>, off: int, size: int): (r: seq<T>)
    requires 0 <= off && 0 <= size && off + size <= |s|
    ensures |r| == size
  {
    s[off..off + size]
  }

  lemma Assoc<T>(a: seq<T>, b: seq<T>, c: seq<T>)
    ensures a + b + c == a + (b + c)
  {
  }

  /** A sequence around one of its elements. */
  lemma Around<T>(s: seq<T>, i: nat)
    requires i < |s|
    ensures s == s[..i] + ([s[i]] + s[i + 1..])
  {
  }

  /** Slicing what is left of a sequence is slicing the sequence. */
  lemma Slices<T>(s: seq<T>, a: nat, b: nat)
    requires a + b <= |s|
    ensures s[a..][..b] == s[a..a + b] && s[a..][b..] == s[a + b..]
  {
  }

  lemma SliceSlice<T>(s: seq<T>, a: nat, b: nat, c: nat, d: nat)
    requires a <= b <= |s| && c <= d <= b - a
    ensures s[a..b][c..d] == s[a + c..a + d]
  {
    var x := s[a..b];
    assert forall k | 0 <= k < d - c :: x[c..d][k] == x[c + k] == s[a + c..a + d][k];
  }

  /** The two ends of a slice that is cut at `m`. */
  lemma SliceEnds<T>(s: seq<T>, a: nat, m: nat, z: nat)
    requires a <= m <= z <= |s|
    ensures s[a..z][..m - a] == s[a..m] && s[a..z][m - a..] == s[m..z]
  {
  }

  lemma U32Slice(s: seq<byte>, a: nat, b: nat, k: nat)
    requires a <= b <= |s| && k + 4 <= b - a
    ensures U32At(s[a..b], k) == U32At(s, a + k)
  {
  }

  lemma TagAlignShift(o: int, x: int)
    requires o % 4 == 0
    ensures TagAlign(o + x) == o + TagAlign(x)
  {
  }

  lemma ConsConcat<T>(x: T, a: seq<T>, b: seq<T>)
    ensures ([x] + a + b)[0] == x && ([x] + a + b)[1..] == a + b && [] + b == b
  {
  }

  /** Two ways to cut a sequence at the same place are one. */
  lemma CutEqual<T>(a: seq<T>, b: seq<T>, c: seq<T>, d: seq<T>)
    requires a + b == c + d && |a| == |c|
    ensures a == c && b == d
  {
    assert a == (a + b)[..|a|] && b == (a + b)[|a|..] && c == (c + d)[..|c|] && d == (c + d)[|c|..];
  }
}
