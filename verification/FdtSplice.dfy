/** Moving and overwriting the bytes of a blob, block by block. */
module FdtSplice {
  import opened Bytes
  import opened FdtFormat
  import opened FdtRo
  import opened FdtBlob

  // ---------------------------------------------------------------- bytes

  /** The bytes after `bytes` was stored at `x`. */
  predicate Wrote(s: seq<byte>, t: seq<byte>, x: nat, bytes: seq<byte>) {
    x + |bytes| <= |s| && t == s[..x] + bytes + s[x + |bytes|..]
  }

  /** Copies `bytes` into the buffer. */
  method Store(buf: array<byte>, at: int, bytes: seq<byte>)
    requires 0 <= at && at + |bytes| <= buf.Length
    modifies buf
    ensures Wrote(old(buf[..]), buf[..], at, bytes)
  {
    forall k | 0 <= k < |bytes| {
      buf[at + k] := bytes[k];
    }
  }

  /** The buffer after the data from `p + oldlen` to `end` was moved to `p + newlen`. */
  function Spliced(b: seq<byte>, p: nat, oldlen: nat, newlen: nat, end: nat): (r: seq<byte>)
    requires p + oldlen <= end <= |b| && end - oldlen + newlen <= |b|
    ensures |r| == |b|
  {
    b[..p + newlen] + b[p + oldlen..end] + b[end - oldlen + newlen..]
  }

  lemma SplicedKeeps(b: seq<byte>, p: nat, oldlen: nat, newlen: nat, end: nat, x: nat, y: nat)
    requires p + oldlen <= end <= |b| && end - oldlen + newlen <= |b| && x <= y <= p + newlen
    ensures Spliced(b, p, oldlen, newlen, end)[x..y] == b[x..y]
  {
  }

  lemma SplicedMoves(b: seq<byte>, p: nat, oldlen: nat, newlen: nat, end: nat, x: nat, y: nat)
    requires p + oldlen <= end <= |b| && end - oldlen + newlen <= |b| && p + oldlen <= x <= y <= end
    ensures Spliced(b, p, oldlen, newlen, end)[x - oldlen + newlen..y - oldlen + newlen] == b[x..y]
  {
    var r := Spliced(b, p, oldlen, newlen, end);
    assert r[p + newlen..end - oldlen + newlen] == b[p + oldlen..end];
    SliceSlice(r, p + newlen, end - oldlen + newlen, x - p - oldlen, y - p - oldlen);
    SliceSlice(b, p + oldlen, end, x - p - oldlen, y - p - oldlen);
  }

  /** Opens or closes a gap at `p` by moving everything up to the end of the data. */
  method Splice(fdt: Fdt, p: int, oldlen: int, newlen: int) returns (err: int)
    requires fdt.Laid() && 0 <= p && 0 <= oldlen && 0 <= newlen
    modifies fdt.buf
    ensures var end := fdt.offDtStrings + fdt.sizeDtStrings;
            && err == (if p + oldlen > end then -ERR_BADOFFSET
                       else if end - oldlen + newlen > fdt.totalsize then -ERR_NOSPACE else 0)
            && fdt.buf[..] == if err != 0 then old(fdt.buf[..])
                              else Spliced(old(fdt.buf[..]), p, oldlen, newlen, end)
  {
    hide Wrote, Spliced;
    var end := fdt.offDtStrings + fdt.sizeDtStrings;
    if p + oldlen > end {
      return -ERR_BADOFFSET;
    }
    if end - oldlen + newlen > fdt.totalsize {
      return -ERR_NOSPACE;
    }
    Store(fdt.buf, p + newlen, fdt.buf[..][p + oldlen..end]);
    MovedIsSpliced(old(fdt.buf[..]), fdt.buf[..], p, oldlen, newlen, end);
    return 0;
  }

  lemma MovedIsSpliced(b: seq<byte>, now: seq<byte>, p: nat, oldlen: nat, newlen: nat, end: nat)
    requires p + oldlen <= end <= |b| && end - oldlen + newlen <= |b|
    requires Wrote(b, now, p + newlen, b[p + oldlen..end])
    ensures now == Spliced(b, p, oldlen, newlen, end)
  {
  }

  /** The header fields no structure or string splice touches, and the distance of the strings from the structure. */
  twostate predicate SameHeader(fdt: Fdt)
    reads fdt
  {
    && fdt.magic == old(fdt.magic) && fdt.totalsize == old(fdt.totalsize)
    && fdt.offMemRsvmap == old(fdt.offMemRsvmap) && fdt.offDtStruct == old(fdt.offDtStruct)
    && fdt.offDtStrings - fdt.sizeDtStruct == old(fdt.offDtStrings - fdt.sizeDtStruct)
    && fdt.version == old(fdt.version) && fdt.lastCompVersion == old(fdt.lastCompVersion)
  }

  /** Exchanges `oldlen` bytes of the buffer at `p` for `newlen` bytes and lets the structure block grow
      by the difference, wherever `p` is. */
  method SpliceAt(fdt: Fdt, p: int, oldlen: int, newlen: int) returns (err: int)
    requires fdt.Laid() && 0 <= p && 0 <= oldlen <= fdt.sizeDtStruct && 0 <= newlen
    requires p + oldlen <= fdt.offDtStruct + fdt.sizeDtStruct
    modifies fdt`sizeDtStruct, fdt`offDtStrings, fdt.buf
    ensures fdt.Laid() && SameHeader(fdt) && fdt.sizeDtStrings == old(fdt.sizeDtStrings)
    ensures err == if old(fdt.offDtStrings) + fdt.sizeDtStrings - oldlen + newlen > fdt.totalsize
                   then -ERR_NOSPACE else 0
    ensures err != 0 ==> fdt.buf[..] == old(fdt.buf[..])
    ensures err != 0 ==> fdt.sizeDtStruct == old(fdt.sizeDtStruct) && fdt.offDtStrings == old(fdt.offDtStrings)
    ensures err == 0 ==> fdt.sizeDtStruct == old(fdt.sizeDtStruct) - oldlen + newlen
    ensures err == 0 ==> fdt.offDtStrings == old(fdt.offDtStrings) - oldlen + newlen
    ensures err == 0 ==> fdt.buf[..] == Spliced(old(fdt.buf[..]), p, oldlen, newlen,
                                                old(fdt.offDtStrings) + fdt.sizeDtStrings)
  {
    hide Spliced;
    err := Splice(fdt, p, oldlen, newlen);
    if err == 0 {
      fdt.sizeDtStruct := fdt.sizeDtStruct + newlen - oldlen;
      fdt.offDtStrings := fdt.offDtStrings + newlen - oldlen;
    }
  }

  /** Replaces `oldlen` bytes at offset `o` of the structure block by `newlen` bytes. */
  method SpliceStruct(fdt: Fdt, o: int, oldlen: int, newlen: int) returns (err: int)
    requires fdt.Laid() && 0 <= o && 0 <= oldlen && o + oldlen <= fdt.sizeDtStruct && 0 <= newlen
    modifies fdt`sizeDtStruct, fdt`offDtStrings, fdt.buf
    ensures fdt.Laid() && SameHeader(fdt) && fdt.sizeDtStrings == old(fdt.sizeDtStrings)
    ensures err == if old(fdt.offDtStrings) + fdt.sizeDtStrings - oldlen + newlen > fdt.totalsize
                   then -ERR_NOSPACE else 0
    ensures fdt.Strings() == old(fdt.Strings()) && fdt.Outside() == old(fdt.Outside())
    ensures err != 0 ==> fdt.Struct() == old(fdt.Struct()) && fdt.offDtStrings == old(fdt.offDtStrings)
    ensures err == 0 ==> fdt.sizeDtStruct == old(fdt.sizeDtStruct) - oldlen + newlen
    ensures err == 0 ==> Gap(old(fdt.Struct()), fdt.Struct(), o, oldlen, newlen)
  {
    hide Spliced, Gap, Window;
    err := SpliceAt(fdt, fdt.offDtStruct + o, oldlen, newlen);
    if err != 0 {
      return;
    }
    StructSpliced(fdt.buf[..], old(fdt.buf[..]), fdt.offDtStruct, o, oldlen, newlen,
                  old(fdt.sizeDtStruct), fdt.sizeDtStruct, old(fdt.offDtStrings), fdt.offDtStrings, fdt.sizeDtStrings);
    OutsideSpliced(fdt.buf[..], old(fdt.buf[..]), fdt.offDtStruct, o, oldlen, newlen,
                   old(fdt.offDtStrings) + fdt.sizeDtStrings, fdt.totalsize);
  }

  lemma OutsideSpliced(now: seq<byte>, b: seq<byte>, off: nat, o: nat, oldlen: nat, newlen: nat, end: nat, total: nat)
    requires off + o + oldlen <= end <= total <= |b| && end - oldlen + newlen <= total
    requires now == Spliced(b, off + o, oldlen, newlen, end)
    ensures |now| == |b| && Window(now, 0, off) == Window(b, 0, off)
    ensures Window(now, total, |b| - total) == Window(b, total, |b| - total)
  {
  }

  /** `t` is `s` with the `oldlen` bytes at `o` exchanged for some `newlen` bytes. */
  predicate Gap(s: seq<byte>, t: seq<byte>, o: nat, oldlen: nat, newlen: nat) {
    && o + oldlen <= |s| && |t| == |s| - oldlen + newlen
    && t[..o] == s[..o] && t[o + newlen..] == s[o + oldlen..]
  }

  lemma StructSpliced(now: seq<byte>, b: seq<byte>, off: nat, o: nat, oldlen: nat, newlen: nat,
                      size: nat, size': nat, strs: nat, strs': nat, strsize: nat)
    requires o + oldlen <= size && off + size <= strs && strs + strsize <= |b| && strs' + strsize <= |b|
    requires size' == size - oldlen + newlen && strs' == strs - oldlen + newlen
    requires now == Spliced(b, off + o, oldlen, newlen, strs + strsize)
    ensures |now| == |b| && off + size' <= strs'
    ensures Gap(Window(b, off, size), Window(now, off, size'), o, oldlen, newlen)
    ensures Window(now, strs', strsize) == Window(b, strs, strsize)
  {
    hide Spliced, Gap;
    var (p, e, end) := (off + o, off + size, strs + strsize);
    SplicedKeeps(b, p, oldlen, newlen, end, off, p);
    SplicedMoves(b, p, oldlen, newlen, end, p + oldlen, e);
    SplicedMoves(b, p, oldlen, newlen, end, strs, end);
    GapBetween(b, now, off, p, p + oldlen, p + newlen, e, off + size');
  }

  lemma GapBetween(b: seq<byte>, now: seq<byte>, off: nat, p: nat, q: nat, q': nat, e: nat, e': nat)
    requires off <= p <= q <= e <= |b| && p <= q' <= e' <= |now| && e' - q' == e - q
    requires now[off..p] == b[off..p] && now[q'..e'] == b[q..e]
    ensures Gap(b[off..e], now[off..e'], p - off, q - p, q' - p)
  {
    SliceEnds(b, off, p, e);
    SliceEnds(b, off, q, e);
    SliceEnds(now, off, p, e');
    SliceEnds(now, off, q', e');
  }

  /** Overwrites bytes of the structure block. */
  method StoreStruct(fdt: Fdt, x: int, bytes: seq<byte>)
    requires fdt.Laid() && 0 <= x && x + |bytes| <= fdt.sizeDtStruct
    modifies fdt.buf
    ensures Wrote(old(fdt.Struct()), fdt.Struct(), x, bytes)
    ensures fdt.Strings() == old(fdt.Strings()) && fdt.Outside() == old(fdt.Outside())
  {
    hide Wrote, Window;
    Store(fdt.buf, fdt.offDtStruct + x, bytes);
    Stored(old(fdt.buf[..]), fdt.buf[..], fdt.offDtStruct, x, bytes, fdt.sizeDtStruct,
           fdt.offDtStrings, fdt.sizeDtStrings);
    OutsideWrote(old(fdt.buf[..]), fdt.buf[..], fdt.offDtStruct + x, bytes, fdt.offDtStruct, fdt.totalsize);
  }

  /** A store inside the blob changes nothing outside. */
  lemma OutsideWrote(b: seq<byte>, now: seq<byte>, x: nat, bytes: seq<byte>, off: nat, total: nat)
    requires Wrote(b, now, x, bytes) && off <= x && x + |bytes| <= total <= |b|
    ensures |now| == |b| && Window(now, 0, off) == Window(b, 0, off)
    ensures Window(now, total, |b| - total) == Window(b, total, |b| - total)
  {
  }

  lemma Stored(b: seq<byte>, now: seq<byte>, off: nat, x: nat, bytes: seq<byte>, size: nat,
               strs: nat, strsize: nat)
    requires x + |bytes| <= size && off + size <= strs && strs + strsize <= |b|
    requires Wrote(b, now, off + x, bytes)
    ensures |now| == |b| && Wrote(Window(b, off, size), Window(now, off, size), x, bytes)
    ensures Window(now, strs, strsize) == Window(b, strs, strsize)
  {
    var s := b[off..off + size];
    assert b == b[..off] + s + b[off + size..];
    assert b[..off + x] == b[..off] + s[..x];
    assert b[off + x + |bytes|..] == s[x + |bytes|..] + b[off + size..];
    assert now == b[..off] + (s[..x] + bytes + s[x + |bytes|..]) + b[off + size..];
    assert now[off + size..] == b[off + size..];
    Slices(now, off + size, strs - off - size);
    Slices(b, off + size, strs - off - size);
  }

  // ---------------------------------------------------------------- strings

  /** Makes room at the end of the strings block. */
  method SpliceString(fdt: Fdt, newlen: int) returns (err: int)
    requires fdt.Laid() && 0 <= newlen
    modifies fdt`sizeDtStrings, fdt.buf
    ensures fdt.Laid() && SameHeader(fdt) && fdt.buf[..] == old(fdt.buf[..])
    ensures err == if fdt.offDtStrings + old(fdt.sizeDtStrings) + newlen > fdt.totalsize then -ERR_NOSPACE else 0
    ensures fdt.sizeDtStrings == old(fdt.sizeDtStrings) + if err == 0 then newlen else 0
  {
    hide Spliced;
    var end := fdt.offDtStrings + fdt.sizeDtStrings;
    err := Splice(fdt, end, 0, newlen);
    if err == 0 {
      SplicedNothing(old(fdt.buf[..]), end, newlen);
      fdt.sizeDtStrings := fdt.sizeDtStrings + newlen;
    }
  }

  /** Appends a string with its terminator to the strings block. */
  method AppendString(fdt: Fdt, s: seq<byte>) returns (err: int)
    requires fdt.Laid() && 0 !in s
    modifies fdt`sizeDtStrings, fdt.buf
    ensures fdt.Laid() && SameHeader(fdt) && fdt.Struct() == old(fdt.Struct()) && fdt.Outside() == old(fdt.Outside())
    ensures err == if fdt.offDtStrings + old(fdt.sizeDtStrings) + |s| + 1 > fdt.totalsize
                   then -ERR_NOSPACE else 0
    ensures err != 0 ==> fdt.Strings() == old(fdt.Strings())
    ensures err == 0 ==> Extended(old(fdt.Strings()), fdt.Strings(), s)
  {
    hide Extended, Wrote, Window;
    var end := fdt.offDtStrings + fdt.sizeDtStrings;
    err := SpliceString(fdt, |s| + 1);
    if err != 0 {
      return;
    }
    Store(fdt.buf, end, s + [0]);
    Appended(old(fdt.buf[..]), fdt.buf[..], fdt.offDtStruct, fdt.sizeDtStruct, fdt.offDtStrings,
             old(fdt.sizeDtStrings), fdt.sizeDtStrings, s);
    OutsideWrote(old(fdt.buf[..]), fdt.buf[..], end, s + [0], fdt.offDtStruct, fdt.totalsize);
  }

  /** `tab'` is `tab` with the string `s` appended, where it can be read back. */
  predicate Extended(tab: seq<byte>, tab': seq<byte>, s: seq<byte>) {
    tab' == tab + (s + [0]) && CStr(tab', |tab|) == Some(s)
  }

  /** Finds a property name in the strings block, or appends it. */
  method FindAddString(fdt: Fdt, s: seq<byte>) returns (r: int)
    requires fdt.Laid() && 0 !in s
    modifies fdt`sizeDtStrings, fdt.buf
    ensures fdt.Laid() && SameHeader(fdt) && fdt.Struct() == old(fdt.Struct()) && fdt.Outside() == old(fdt.Outside())
    ensures r >= 0 ==> CStr(fdt.Strings(), r) == Some(s)
    ensures fdt.Strings() == if r < 0 || Holds(old(fdt.Strings()), s) then old(fdt.Strings())
                             else old(fdt.Strings()) + (s + [0])
    ensures r < 0 ==> r == -ERR_NOSPACE
    ensures r < 0 <==> !Holds(old(fdt.Strings()), s)
                       && fdt.offDtStrings + old(fdt.sizeDtStrings) + |s| + 1 > fdt.totalsize
  {
    hide Holds, StringAt;
    var found := FindString(fdt.Strings(), s);
    if found.Some? {
      return found.value;
    }
    r := fdt.sizeDtStrings;
    var err := AppendString(fdt, s);
    if err != 0 {
      r := err;
    }
  }

  lemma SplicedNothing(b: seq<byte>, p: nat, newlen: nat)
    requires p + newlen <= |b|
    ensures Spliced(b, p, 0, newlen, p) == b
  {
  }

  lemma Appended(b: seq<byte>, now: seq<byte>, off: nat, size: nat, strs: nat, strsize: nat, strsize': nat,
                 s: seq<byte>)
    requires off + size <= strs && strsize' == strsize + |s| + 1 && strs + strsize' <= |b| && 0 !in s
    requires Wrote(b, now, strs + strsize, s + [0])
    ensures |now| == |b| && Window(now, off, size) == Window(b, off, size)
    ensures Extended(Window(b, strs, strsize), Window(now, strs, strsize'), s)
  {
    hide CStr;
    var end := strs + strsize;
    var tab := now[strs..end + |s| + 1];
    assert tab == b[strs..end] + (s + [0]);
    assert tab[end - strs..end - strs + |s| + 1] == s + [0];
    CStrAt(tab, end - strs, s);
  }

  // ---------------------------------------------------------------- properties in bytes

  /** `t` is `s` with the bytes from `o` to `e` exchanged for a property. */
  predicate HoldsProp(s: seq<byte>, t: seq<byte>, o: nat, e: nat, nameoff: int, value: seq<byte>) {
    var n := 12 + TagAlign(|value|);
    && o <= e <= |s| && |t| == |s| - (e - o) + n
    && t[..o] == s[..o] && t[o + n..] == s[e..]
    && U32At(t, o) == FDT_PROP && U32At(t, o + 4) == |value| && U32At(t, o + 8) == nameoff
    && t[o + 12..o + 12 + |value|] == value
  }

  lemma WroteSlices(s: seq<byte>, t: seq<byte>, x: nat, bytes: seq<byte>, a: nat, b: nat)
    requires Wrote(s, t, x, bytes) && a <= b <= |s| && (b <= x || x + |bytes| <= a)
    ensures t[a..b] == s[a..b]
  {
  }

  lemma WroteCell(s: seq<byte>, t: seq<byte>, x: nat, bytes: seq<byte>, y: nat)
    requires Wrote(s, t, x, bytes) && y + 4 <= |s| && (y + 4 <= x || x + |bytes| <= y)
    ensures U32At(t, y) == U32At(s, y)
  {
  }

  lemma WroteHere(s: seq<byte>, t: seq<byte>, x: nat, v: int)
    requires 0 <= v < U32 && Wrote(s, t, x, Be32(v))
    ensures U32At(t, x) == v
  {
    hide Be32;
    var b := Be32(v);
    assert t[x] == b[0] && t[x + 1] == b[1] && t[x + 2] == b[2] && t[x + 3] == b[3];
  }

  lemma GapCell(s: seq<byte>, t: seq<byte>, o: nat, oldlen: nat, newlen: nat, y: nat)
    requires Gap(s, t, o, oldlen, newlen) && y + 4 <= o
    ensures U32At(t, y) == U32At(s, y)
  {
    assert t[y] == t[..o][y] && t[y + 1] == t[..o][y + 1] && t[y + 2] == t[..o][y + 2] && t[y + 3] == t[..o][y + 3];
  }

  /** Growing or shrinking the data of a property, setting its length, copying the new value. */
  lemma PropResized(s0: seq<byte>, s1: seq<byte>, s2: seq<byte>, s3: seq<byte>, o: nat, oldlen: nat,
                    value: seq<byte>)
    requires |value| < U32 && o + 12 + TagAlign(oldlen) <= |s0| && U32At(s0, o) == FDT_PROP
    requires Gap(s0, s1, o + 12, TagAlign(oldlen), TagAlign(|value|))
    requires Wrote(s1, s2, o + 4, Be32(|value|)) && Wrote(s2, s3, o + 12, value)
    ensures HoldsProp(s0, s3, o, o + 12 + TagAlign(oldlen), U32At(s0, o + 8), value)
  {
    hide U32At, Be32, TagAlign;
    var (n, len) := (12 + TagAlign(|value|), |s1|);
    PropFields(s1, s2, s3, o, value);
    GapCell(s0, s1, o + 12, TagAlign(oldlen), TagAlign(|value|), o);
    GapCell(s0, s1, o + 12, TagAlign(oldlen), TagAlign(|value|), o + 8);
    WroteCell(s1, s2, o + 4, Be32(|value|), o);
    WroteCell(s1, s2, o + 4, Be32(|value|), o + 8);
    WroteHere(s1, s2, o + 4, |value|);
    assert s1[..o] == s0[..o] by { assert s1[..o + 12][..o] == s0[..o + 12][..o]; }
    assert s1[o + n..] == s0[o + 12 + TagAlign(oldlen)..];
  }

  /** What storing a length cell and a value leaves alone, and what it puts where. */
  lemma PropFields(s1: seq<byte>, s2: seq<byte>, s3: seq<byte>, o: nat, value: seq<byte>)
    requires |value| < U32 && o + 12 + TagAlign(|value|) <= |s1|
    requires |s2| == |s1| && Wrote(s2, s3, o + 12, value)
    requires s2[..o] == s1[..o] && s2[o + 12..] == s1[o + 12..]
    ensures |s3| == |s1| && s3[..o] == s1[..o]
    ensures s3[o + 12 + TagAlign(|value|)..] == s1[o + 12 + TagAlign(|value|)..]
    ensures U32At(s3, o) == U32At(s2, o) && U32At(s3, o + 4) == U32At(s2, o + 4) && U32At(s3, o + 8) == U32At(s2, o + 8)
    ensures s3[o + 12..o + 12 + |value|] == value
  {
    hide U32At, TagAlign;
    var n := 12 + TagAlign(|value|);
    WroteCell(s2, s3, o + 12, value, o);
    WroteCell(s2, s3, o + 12, value, o + 4);
    WroteCell(s2, s3, o + 12, value, o + 8);
    WroteSlices(s2, s3, o + 12, value, 0, o);
    WroteSlices(s2, s3, o + 12, value, o + n, |s2|);
    Slices(s2, o + 12, n - 12);
    Slices(s1, o + 12, n - 12);
  }

  /** Opening room for a property, writing its header, copying the value. */
  lemma PropAdded(s0: seq<byte>, s1: seq<byte>, s2: seq<byte>, s3: seq<byte>, o: nat, nameoff: int,
                  value: seq<byte>)
    requires |value| < U32 && 0 <= nameoff < U32 && o <= |s0|
    requires Gap(s0, s1, o, 0, 12 + TagAlign(|value|))
    requires Wrote(s1, s2, o, Be32(FDT_PROP) + Be32(|value|) + Be32(nameoff)) && Wrote(s2, s3, o + 12, value)
    ensures HoldsProp(s0, s3, o, o, nameoff, value)
  {
    hide U32At, Be32, TagAlign;
    PropFields(s1, s2, s3, o, value);
    HeaderCells(s1, s2, o, |value|, nameoff);
  }

  lemma HeaderCells(s: seq<byte>, t: seq<byte>, o: nat, len: int, nameoff: int)
    requires 0 <= len < U32 && 0 <= nameoff < U32
    requires Wrote(s, t, o, Be32(FDT_PROP) + Be32(len) + Be32(nameoff))
    ensures U32At(t, o) == FDT_PROP && U32At(t, o + 4) == len && U32At(t, o + 8) == nameoff
  {
    hide Be32;
    var (a, b, c) := (Be32(FDT_PROP), Be32(len), Be32(nameoff));
    var (u, v) := (s[..o], s[o + 12..]);
    assert t == u + a + (b + c + v) == u + a + b + (c + v) == u + a + b + c + v;
    WroteHere(u + a[..0] + a + (b + c + v), u + a + (b + c + v), o, FDT_PROP);
    WroteHere(u + a + b + (c + v), u + a + b + (c + v), o + 4, len);
    WroteHere(u + a + b + c + v, u + a + b + c + v, o + 8, nameoff);
  }

  /** Gives the property at offset `o`, whose data is `oldlen` bytes long, a new value. */
  method ReplaceValue(fdt: Fdt, o: int, oldlen: int, value: seq<byte>) returns (err: int)
    requires fdt.Laid() && 0 <= o && 0 <= oldlen && |value| < U32 / 2
    requires o + 12 + TagAlign(oldlen) <= fdt.sizeDtStruct && U32At(fdt.Struct(), o) == FDT_PROP
    modifies fdt`sizeDtStruct, fdt`offDtStrings, fdt.buf
    ensures fdt.Laid() && SameHeader(fdt) && fdt.Strings() == old(fdt.Strings()) && fdt.Outside() == old(fdt.Outside())
    ensures err == if old(fdt.offDtStrings) + fdt.sizeDtStrings - TagAlign(oldlen) + TagAlign(|value|) > fdt.totalsize
                   then -ERR_NOSPACE else 0
    ensures err != 0 ==> fdt.Struct() == old(fdt.Struct()) && fdt.offDtStrings == old(fdt.offDtStrings)
    ensures err == 0 ==> HoldsProp(old(fdt.Struct()), fdt.Struct(), o, o + 12 + TagAlign(oldlen),
                                   U32At(old(fdt.Struct()), o + 8), value)
  {
    hide HoldsProp, Gap, Wrote, Be32, U32At, TagAlign;
    err := SpliceStruct(fdt, o + 12, TagAlign(oldlen), TagAlign(|value|));
    if err == 0 {
      ghost var s1 := fdt.Struct();
      StoreStruct(fdt, o + 4, Be32(|value|));
      ghost var s2 := fdt.Struct();
      StoreStruct(fdt, o + 12, value);
      PropResized(old(fdt.Struct()), s1, s2, fdt.Struct(), o, oldlen, value);
    }
  }

  /** Inserts a property at offset `o`. */
  method InsertValue(fdt: Fdt, o: int, nameoff: int, value: seq<byte>) returns (err: int)
    requires fdt.Laid() && 0 <= o <= fdt.sizeDtStruct && 0 <= nameoff < U32 && |value| < U32 / 2
    modifies fdt`sizeDtStruct, fdt`offDtStrings, fdt.buf
    ensures fdt.Laid() && SameHeader(fdt) && fdt.Strings() == old(fdt.Strings()) && fdt.Outside() == old(fdt.Outside())
    ensures err == if old(fdt.offDtStrings) + fdt.sizeDtStrings + 12 + TagAlign(|value|) > fdt.totalsize
                   then -ERR_NOSPACE else 0
    ensures err != 0 ==> fdt.Struct() == old(fdt.Struct())
    ensures err == 0 ==> HoldsProp(old(fdt.Struct()), fdt.Struct(), o, o, nameoff, value)
  {
    hide HoldsProp, Gap, Wrote, Be32, TagAlign;
    err := SpliceStruct(fdt, o, 0, 12 + TagAlign(|value|));
    if err == 0 {
      ghost var s1 := fdt.Struct();
      StoreStruct(fdt, o, Be32(FDT_PROP) + Be32(|value|) + Be32(nameoff));
      ghost var s2 := fdt.Struct();
      StoreStruct(fdt, o + 12, value);
      PropAdded(old(fdt.Struct()), s1, s2, fdt.Struct(), o, nameoff, value);
    }
  }

  /** A block with a run of tokens exchanged for one property. */
  lemma BlockWithProp(s: seq<byte>, t: seq<byte>, ts: seq<Token>, i: nat, j: nat, nameoff: int, value: seq<byte>)
    requires IsBlock(s, ts) && i <= j <= |ts| && HoldsProp(s, t, Off(ts, i), Off(ts, j), nameoff, value)
    ensures IsBlock(t, ts[..i] + [Prop(nameoff, value)] + ts[j..])
  {
    hide IsBlock, Encodes, Size, U32At, TagAlign;
    var (o, n) := (Off(ts, i), 12 + TagAlign(|value|));
    var seg := t[o..o + n];
    U32Slice(t, o, o + n, 0);
    U32Slice(t, o, o + n, 4);
    U32Slice(t, o, o + n, 8);
    SliceSlice(t, o, o + n, 12, 12 + |value|);
    EncodesOne(seg, Prop(nameoff, value));
    BlockReplace(s, ts, i, j, seg, [Prop(nameoff, value)]);
    assert t == t[..o] + seg + t[o + n..];
  }
}
