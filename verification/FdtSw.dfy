/** Writing a blob sequentially: the structure block grows up, the strings block grows down from
    the end of the buffer, and finishing moves the strings behind the structure. */
module FdtSw {
  import opened Bytes
  import opened FdtFormat
  import opened FdtTree
  import opened FdtRo
  import opened FdtRsv
  import opened FdtBlob
  import opened FdtSplice
  import opened FdtReloc

  // ---------------------------------------------------------------- state

  /** A blob that was created and not finished. */
  predicate Started(fdt: Fdt)
    reads fdt
  {
    && fdt.magic == FDT_SW_MAGIC && fdt.version == 17 && fdt.lastCompVersion == 16
    && HEADER_SIZE <= fdt.offMemRsvmap <= fdt.offDtStruct && 0 <= fdt.sizeDtStruct && 0 <= fdt.sizeDtStrings
    && fdt.totalsize == fdt.buf.Length < U32 / 2
  }

  /** Its two blocks share the buffer without overlapping. */
  predicate Writing(fdt: Fdt)
    reads fdt
  {
    Started(fdt) && fdt.offDtStruct + fdt.sizeDtStruct + fdt.sizeDtStrings <= fdt.totalsize
  }

  /** The structure written so far. */
  function Body(fdt: Fdt): (s: seq<byte>)
    requires Writing(fdt)
    reads fdt, fdt.buf
    ensures |s| == fdt.sizeDtStruct
  {
    Window(fdt.buf[..], fdt.offDtStruct, fdt.sizeDtStruct)
  }

  /** What lies in front of the structure: the reservations. */
  function Front(fdt: Fdt): (s: seq<byte>)
    requires Writing(fdt)
    reads fdt, fdt.buf
    ensures |s| == fdt.offDtStruct
  {
    Window(fdt.buf[..], 0, fdt.offDtStruct)
  }

  /** The strings written so far, at the end of the buffer. */
  function Tab(fdt: Fdt): (s: seq<byte>)
    requires Writing(fdt)
    reads fdt, fdt.buf
    ensures |s| == fdt.sizeDtStrings
  {
    Window(fdt.buf[..], fdt.totalsize - fdt.sizeDtStrings, fdt.sizeDtStrings)
  }

  /** The structure written so far is well formed and says `es`. */
  ghost predicate Conveys(body: seq<byte>, tab: seq<byte>, es: seq<Event>) {
    exists ts :: Encodes(body, ts) && Says(ts, tab, es)
  }

  /** The tokens written so far. */
  ghost function Written(body: seq<byte>, tab: seq<byte>, es: seq<Event>): (ts: seq<Token>)
    requires Conveys(body, tab, es)
    ensures Encodes(body, ts) && Says(ts, tab, es)
  {
    var ts :| Encodes(body, ts) && Says(ts, tab, es);
    ts
  }

  lemma ConveysTokens(body: seq<byte>, tab: seq<byte>, es: seq<Event>, ts: seq<Token>)
    requires Encodes(body, ts) && Says(ts, tab, es)
    ensures Conveys(body, tab, es)
  {
  }

  /** One more encoded token conveys one more event. */
  lemma ConveysMore(body: seq<byte>, tab: seq<byte>, es: seq<Event>, seg: seq<byte>, t: Token, e: Event)
    requires Conveys(body, tab, es) && IsToken(seg, t) && Says([t], tab, [e])
    ensures Conveys(body + seg, tab, es + [e])
  {
    hide Encodes, Says, IsToken, Conveys;
    var ts := Written(body, tab, es);
    EncodesOne(seg, t);
    EncodesConcat(body, ts, seg, [t]);
    SaysMore(ts, tab, es, t, e);
    ConveysTokens(body + seg, tab, es + [e], ts + [t]);
  }

  lemma ConveysPrepended(body: seq<byte>, pre: seq<byte>, tab: seq<byte>, es: seq<Event>)
    requires Conveys(body, tab, es) && |pre + tab| < U32 / 2
    ensures Conveys(body, pre + tab, es)
  {
    hide Encodes, Says, Conveys;
    var ts := Written(body, tab, es);
    SaysPrepended(ts, pre, tab, es);
    ConveysTokens(body, pre + tab, es, ts);
  }

  // ---------------------------------------------------------------- space

  /** The test in _fdt_grab_space: the space left is a signed 32-bit difference, and comparing it
      with an unsigned 64-bit length takes a negative one for a huge one. */
  predicate GrabOk(offset: int, len: int, totalsize: int, offDtStruct: int, sizeDtStrings: int) {
    var spaceleft := totalsize - offDtStruct - sizeDtStrings;
    offset + len <= if spaceleft < 0 then spaceleft + 0x1_0000_0000_0000_0000 else spaceleft
  }

  /** The test means what it should exactly while the structure starts in front of the strings. */
  lemma GrabMeansRoom(totalsize: int, offDtStruct: int, sizeDtStrings: int)
    requires 0 <= totalsize < U32 / 2 && 0 <= offDtStruct < U32 / 2 && 0 <= sizeDtStrings < U32 / 2
    ensures (forall offset: nat, len: nat | offset + len < U32 ::
               GrabOk(offset, len, totalsize, offDtStruct, sizeDtStrings)
               <==> offDtStruct + offset + len + sizeDtStrings <= totalsize)
            <==> offDtStruct + sizeDtStrings <= totalsize
  {
    if offDtStruct + sizeDtStrings > totalsize {
      assert GrabOk(0, 4, totalsize, offDtStruct, sizeDtStrings);
      assert 0 + 4 < U32;
    }
  }

  /** Where the structure starts behind the end of the buffer, there is room for everything. */
  lemma GrabsTooMuch()
    ensures GrabOk(0, 4, 40, 48, 0) && 48 + 0 + 4 + 0 > 40
  {
  }

  /** Reserves bytes at the end of the structure. */
  method GrabSpace(fdt: Fdt, len: nat) returns (r: Option<int>)
    requires Writing(fdt)
    modifies fdt`sizeDtStruct
    ensures Writing(fdt)
    ensures r.Some? <==> old(fdt.offDtStruct + fdt.sizeDtStruct) + len + fdt.sizeDtStrings <= fdt.totalsize
    ensures r.Some? ==> r.value == old(fdt.sizeDtStruct) && fdt.sizeDtStruct == old(fdt.sizeDtStruct) + len
    ensures r.None? ==> fdt.sizeDtStruct == old(fdt.sizeDtStruct)
  {
    var offset := fdt.sizeDtStruct;
    if !GrabOk(offset, len, fdt.totalsize, fdt.offDtStruct, fdt.sizeDtStrings) {
      return None;
    }
    fdt.sizeDtStruct := offset + len;
    return Some(offset);
  }

  /** Reserves `len` bytes at the end of the structure and stores `bytes` at their start. */
  method Append(fdt: Fdt, bytes: seq<byte>, len: nat) returns (ok: bool)
    requires Writing(fdt) && |bytes| <= len
    modifies fdt`sizeDtStruct, fdt.buf
    ensures Writing(fdt) && Tab(fdt) == old(Tab(fdt)) && Front(fdt) == old(Front(fdt))
    ensures ok <==> old(fdt.offDtStruct + fdt.sizeDtStruct) + len + fdt.sizeDtStrings <= fdt.totalsize
    ensures !ok ==> Body(fdt) == old(Body(fdt))
    ensures ok ==> fdt.sizeDtStruct == old(fdt.sizeDtStruct) + len
    ensures ok ==> Grown(old(Body(fdt)), Body(fdt), bytes, len)
  {
    hide Grown, Window;
    var r := GrabSpace(fdt, len);
    if r.None? {
      return false;
    }
    BodyPrefix(fdt.buf[..], fdt.offDtStruct, r.value, fdt.sizeDtStruct);
    Fill(fdt, r.value, bytes);
    return true;
  }

  lemma BodyPrefix(b: seq<byte>, off: nat, size: nat, size': nat)
    requires size <= size' && off + size' <= |b|
    ensures Window(b, off, size')[..size] == Window(b, off, size)
  {
    SliceSlice(b, off, off + size', 0, size);
  }

  /** Stores `bytes` in the structure. */
  method Fill(fdt: Fdt, x: nat, bytes: seq<byte>)
    requires Writing(fdt) && x + |bytes| <= fdt.sizeDtStruct
    modifies fdt.buf
    ensures Tab(fdt) == old(Tab(fdt)) && Front(fdt) == old(Front(fdt))
    ensures Grown(old(Body(fdt))[..x], Body(fdt), bytes, fdt.sizeDtStruct - x)
  {
    hide Grown, FdtSplice.Wrote, Window;
    Store(fdt.buf, fdt.offDtStruct + x, bytes);
    BodyGrown(old(fdt.buf[..]), fdt.buf[..], fdt.offDtStruct, fdt.sizeDtStruct, x, bytes,
              fdt.totalsize - fdt.sizeDtStrings);
  }

  /** `t` is `s` followed by `len` bytes that start with `bytes`. */
  predicate Grown(s: seq<byte>, t: seq<byte>, bytes: seq<byte>, len: nat) {
    |t| == |s| + len && t[..|s|] == s && |bytes| <= len && t[|s|..|s| + |bytes|] == bytes
  }

  lemma BodyGrown(b: seq<byte>, now: seq<byte>, off: nat, size: nat, x: nat, bytes: seq<byte>, strs: nat)
    requires x + |bytes| <= size && off + size <= strs <= |b|
    requires FdtSplice.Wrote(b, now, off + x, bytes)
    ensures |now| == |b| && Grown(Window(b, off, size)[..x], Window(now, off, size), bytes, size - x)
    ensures Window(now, strs, |b| - strs) == Window(b, strs, |b| - strs) && Window(now, 0, off) == Window(b, 0, off)
  {
    SliceSlice(b, off, off + size, 0, x);
    SliceSlice(now, off, off + size, 0, x);
    SliceSlice(now, off, off + size, x, x + |bytes|);
    assert now[off..off + x] == b[off..off + x] && now[off + x..off + x + |bytes|] == bytes;
  }

  // ---------------------------------------------------------------- writing

  lemma BeginToken(s: seq<byte>, t: seq<byte>, name: seq<byte>)
    requires 0 !in name && Grown(s, t, Be32(FDT_BEGIN_NODE) + (name + [0]), TokLen(Begin(name)))
    ensures t == s + t[|s|..] && IsToken(t[|s|..], Begin(name))
  {
    hide Be32, TagAlign, U32At;
    var (seg, bytes) := (t[|s|..], Be32(FDT_BEGIN_NODE) + (name + [0]));
    Slices(t, |s|, |bytes|);
    assert seg[..|bytes|] == bytes;
    Cell(seg, bytes, 0, FDT_BEGIN_NODE);
    SliceSlice(seg, 0, |bytes|, 4, |bytes|);
    assert bytes[4..] == name + [0];
  }

  lemma Cell(seg: seq<byte>, bytes: seq<byte>, x: nat, v: int)
    requires |bytes| <= |seg| && seg[..|bytes|] == bytes
    requires 0 <= v < U32 && x + 4 <= |bytes| && bytes[x..x + 4] == Be32(v)
    ensures U32At(seg, x) == v
  {
    hide Be32;
    var b := Be32(v);
    SliceSlice(seg, 0, |bytes|, x, x + 4);
    var c := seg[x..x + 4];
    assert c == b && c[0] == seg[x] && c[1] == seg[x + 1] && c[2] == seg[x + 2] && c[3] == seg[x + 3];
  }

  lemma EndToken(s: seq<byte>, t: seq<byte>)
    requires Grown(s, t, Be32(FDT_END_NODE), 4)
    ensures t == s + t[|s|..] && IsToken(t[|s|..], EndNode)
  {
    hide Be32, U32At;
    var seg := t[|s|..];
    assert seg[..4] == seg == Be32(FDT_END_NODE) && seg[0..4] == seg;
    Cell(seg, Be32(FDT_END_NODE), 0, FDT_END_NODE);
  }

  lemma PropToken(s: seq<byte>, t: seq<byte>, nameoff: int, value: seq<byte>)
    requires 0 <= nameoff < U32 && |value| < U32
    requires Grown(s, t, Be32(FDT_PROP) + Be32(|value|) + Be32(nameoff) + value, TokLen(Prop(nameoff, value)))
    ensures t == s + t[|s|..] && IsToken(t[|s|..], Prop(nameoff, value))
  {
    hide Be32, TagAlign, U32At;
    var (a, b, c) := (Be32(FDT_PROP), Be32(|value|), Be32(nameoff));
    var (seg, bytes) := (t[|s|..], a + b + c + value);
    Slices(t, |s|, |bytes|);
    assert seg[..|bytes|] == bytes;
    assert bytes[0..4] == a && bytes[4..8] == b && bytes[8..12] == c && bytes[12..] == value;
    Cell(seg, bytes, 0, FDT_PROP);
    Cell(seg, bytes, 4, |value|);
    Cell(seg, bytes, 8, nameoff);
    SliceSlice(seg, 0, |bytes|, 12, |bytes|);
  }

  /** Opens a node. */
  method WriteBegin(fdt: Fdt, name: seq<byte>, ghost es: seq<Event>) returns (err: int)
    requires Writing(fdt) && 0 !in name && Conveys(Body(fdt), Tab(fdt), es)
    modifies fdt`sizeDtStruct, fdt.buf
    ensures Writing(fdt) && Tab(fdt) == old(Tab(fdt)) && Front(fdt) == old(Front(fdt))
    ensures err == if old(fdt.offDtStruct + fdt.sizeDtStruct) + TokLen(Begin(name)) + fdt.sizeDtStrings <= fdt.totalsize
                   then 0 else -ERR_NOSPACE
    ensures err != 0 ==> Body(fdt) == old(Body(fdt))
    ensures err == 0 ==> fdt.sizeDtStruct == old(fdt.sizeDtStruct) + TokLen(Begin(name))
                         && Conveys(Body(fdt), Tab(fdt), es + [Open(name)])
  {
    hide Grown, Be32, Conveys, IsToken, Says, TagAlign;
    var ok := Append(fdt, Be32(FDT_BEGIN_NODE) + (name + [0]), 4 + TagAlign(|name| + 1));
    if !ok {
      return -ERR_NOSPACE;
    }
    ghost var (s, t) := (old(Body(fdt)), Body(fdt));
    BeginToken(s, t, name);
    SaysOpen(name, Tab(fdt));
    ConveysMore(s, Tab(fdt), es, t[|s|..], Begin(name), Open(name));
    return 0;
  }

  /** Closes a node. */
  method WriteEnd(fdt: Fdt, ghost es: seq<Event>) returns (err: int)
    requires Writing(fdt) && Conveys(Body(fdt), Tab(fdt), es)
    modifies fdt`sizeDtStruct, fdt.buf
    ensures Writing(fdt) && Tab(fdt) == old(Tab(fdt)) && Front(fdt) == old(Front(fdt))
    ensures err == if old(fdt.offDtStruct + fdt.sizeDtStruct) + 4 + fdt.sizeDtStrings <= fdt.totalsize
                   then 0 else -ERR_NOSPACE
    ensures err != 0 ==> Body(fdt) == old(Body(fdt))
    ensures err == 0 ==> fdt.sizeDtStruct == old(fdt.sizeDtStruct) + 4
                         && Conveys(Body(fdt), Tab(fdt), es + [Close])
  {
    hide Grown, Be32, Conveys, IsToken, Says;
    var ok := Append(fdt, Be32(FDT_END_NODE), 4);
    if !ok {
      return -ERR_NOSPACE;
    }
    ghost var (s, t) := (old(Body(fdt)), Body(fdt));
    EndToken(s, t);
    SaysClose(Tab(fdt));
    ConveysMore(s, Tab(fdt), es, t[|s|..], EndNode, Close);
    return 0;
  }

  /** The strings block after a name was looked up and added if it was missing. */
  ghost function WithString(tab: seq<byte>, s: seq<byte>): (r: seq<byte>) {
    if Holds(tab, s) then tab else s + [0] + tab
  }

  /** The name is among the strings, at `nameoff` from their end. */
  ghost predicate Placed(tab: seq<byte>, tab': seq<byte>, s: seq<byte>, nameoff: int) {
    tab' == WithString(tab, s) && -|tab'| <= nameoff < 0 && CStr(tab', nameoff + |tab'|) == Some(s)
  }

  /** Finds a name among the strings, or puts it in front of them. The result counts from the end
      of the buffer, so it stays right when more strings are put in front; 0 means no room. */
  method FindAddString(fdt: Fdt, s: seq<byte>) returns (nameoff: int)
    requires Writing(fdt) && 0 !in s
    modifies fdt`sizeDtStrings, fdt.buf
    ensures Writing(fdt) && Body(fdt) == old(Body(fdt)) && Front(fdt) == old(Front(fdt))
    ensures nameoff != 0 <==> fdt.offDtStruct + fdt.sizeDtStruct + |WithString(old(Tab(fdt)), s)| <= fdt.totalsize
    ensures nameoff == 0 ==> Tab(fdt) == old(Tab(fdt))
    ensures nameoff != 0 ==> Placed(old(Tab(fdt)), Tab(fdt), s, nameoff)
  {
    hide Holds, StringAt, CStr, Placed, FdtSplice.Wrote;
    var found := FindString(Tab(fdt), s);
    if found.Some? {
      PlacedFound(Tab(fdt), s, found.value);
      return found.value - fdt.sizeDtStrings;
    }
    var offset := -fdt.sizeDtStrings - (|s| + 1);
    var structTop := fdt.offDtStruct + fdt.sizeDtStruct;
    if fdt.totalsize + offset < structTop {
      return 0;
    }
    PutString(fdt, s);
    return offset;
  }

  /** Puts a missing string in front of the others. */
  method PutString(fdt: Fdt, s: seq<byte>)
    requires Writing(fdt) && 0 !in s && !Holds(Tab(fdt), s)
    requires fdt.offDtStruct + fdt.sizeDtStruct + fdt.sizeDtStrings + |s| + 1 <= fdt.totalsize
    modifies fdt`sizeDtStrings, fdt.buf
    ensures fdt.sizeDtStrings == old(fdt.sizeDtStrings) + |s| + 1 && Writing(fdt)
    ensures Body(fdt) == old(Body(fdt)) && Front(fdt) == old(Front(fdt))
    ensures Placed(old(Tab(fdt)), Tab(fdt), s, -fdt.sizeDtStrings)
  {
    hide Holds, CStr, Placed, FdtSplice.Wrote, Window;
    var size := fdt.sizeDtStrings + |s| + 1;
    Store(fdt.buf, fdt.totalsize - size, s + [0]);
    StringPut(old(fdt.buf[..]), fdt.buf[..], fdt.totalsize, fdt.sizeDtStrings, size, s,
              fdt.offDtStruct, fdt.sizeDtStruct);
    fdt.sizeDtStrings := size;
  }

  lemma PlacedFound(tab: seq<byte>, s: seq<byte>, p: int)
    requires Holds(tab, s) && CStr(tab, p) == Some(s)
    ensures Placed(tab, tab, s, p - |tab|) && p - |tab| != 0
  {
  }

  lemma StringPut(b: seq<byte>, now: seq<byte>, end: nat, size: int, size': int, s: seq<byte>, off: nat, body: nat)
    requires end == |b| && 0 <= size && size' == size + |s| + 1 && off + body + size' <= end && 0 !in s
    requires FdtSplice.Wrote(b, now, end - size', s + [0])
    requires !Holds(Window(b, end - size, size), s)
    ensures |now| == end && Window(now, off, body) == Window(b, off, body) && Window(now, 0, off) == Window(b, 0, off)
    ensures Placed(Window(b, end - size, size), Window(now, end - size', size'), s, -size')
  {
    hide CStr, Holds;
    var tab := now[end - size'..end];
    assert tab == s + [0] + b[end - size..end];
    assert tab[0..0 + |s| + 1] == s + [0];
    CStrAt(tab, 0, s);
  }

  /** Writes a property: its name goes to the strings unless it is there already, whole or as the
      tail of another name. */
  method WriteProperty(fdt: Fdt, name: seq<byte>, value: seq<byte>, ghost es: seq<Event>) returns (err: int)
    requires Writing(fdt) && 0 !in name && |value| < U32 / 2 - 16 && Conveys(Body(fdt), Tab(fdt), es)
    modifies fdt`sizeDtStruct, fdt`sizeDtStrings, fdt.buf
    ensures Writing(fdt) && Front(fdt) == old(Front(fdt))
    ensures err == if old(fdt.offDtStruct + fdt.sizeDtStruct) + TokLen(Prop(0, value))
                      + |WithString(old(Tab(fdt)), name)| <= fdt.totalsize
                   then 0 else -ERR_NOSPACE
    ensures err != 0 ==> Body(fdt) == old(Body(fdt)) && Conveys(Body(fdt), Tab(fdt), es)
    ensures err == 0 ==> fdt.sizeDtStruct == old(fdt.sizeDtStruct) + TokLen(Prop(0, value))
                         && Tab(fdt) == WithString(old(Tab(fdt)), name)
                         && Conveys(Body(fdt), Tab(fdt), es + [Attr(Property(name, value))])
  {
    hide Grown, Be32, Conveys, IsToken, Says, TagAlign, Placed, CStr, Holds, WithString;
    var nameoff := FindAddString(fdt, name);
    if nameoff == 0 {
      return -ERR_NOSPACE;
    }
    NamePlaced(Body(fdt), old(Tab(fdt)), Tab(fdt), name, value, nameoff, es);
    ghost var (s, tab) := (Body(fdt), Tab(fdt));
    var bytes := Be32(FDT_PROP) + Be32(|value|) + Be32(nameoff + U32) + value;
    var ok := Append(fdt, bytes, 12 + TagAlign(|value|));
    if !ok {
      return -ERR_NOSPACE;
    }
    PropToken(s, Body(fdt), nameoff + U32, value);
    ConveysMore(s, tab, es, Body(fdt)[|s|..], Prop(nameoff + U32, value), Attr(Property(name, value)));
    return 0;
  }

  lemma NamePlaced(body: seq<byte>, tab: seq<byte>, tab': seq<byte>, name: seq<byte>, value: seq<byte>, nameoff: int,
                   es: seq<Event>)
    requires Conveys(body, tab, es) && Placed(tab, tab', name, nameoff) && |tab'| < U32 / 2
    ensures Conveys(body, tab', es) && tab' == WithString(tab, name) && -U32 / 2 < nameoff < 0
    ensures Says([Prop(nameoff + U32, value)], tab', [Attr(Property(name, value))])
  {
    hide Conveys, Says, CStr, Holds;
    if !Holds(tab, name) {
      ConveysPrepended(body, name + [0], tab, es);
    }
    SaysProp(nameoff + |tab'|, name, value, tab');
  }

  // ---------------------------------------------------------------- start

  /** Prepares an empty blob. The smallest sizes accepted leave the structure block outside the
      buffer: the state is sound exactly from 48 bytes on. */
  method Create(fdt: Fdt) returns (err: int)
    requires fdt.buf.Length < U32 / 2
    modifies fdt, fdt.buf
    ensures err == if fdt.buf.Length < HEADER_SIZE then -ERR_NOSPACE else 0
    ensures err == 0 ==> Started(fdt) && (Writing(fdt) <==> fdt.buf.Length >= 48)
    ensures err == 0 ==> fdt.offMemRsvmap == fdt.offDtStruct == 48
    ensures err == 0 ==> fdt.totalsize == fdt.offDtStrings == fdt.buf.Length
    ensures err == 0 ==> fdt.sizeDtStruct == fdt.sizeDtStrings == 0
    ensures err == 0 && Writing(fdt) ==> Conveys(Body(fdt), Tab(fdt), [])
  {
    hide Conveys;
    if fdt.buf.Length < HEADER_SIZE {
      return -ERR_NOSPACE;
    }
    forall i | 0 <= i < fdt.buf.Length {
      fdt.buf[i] := 0;
    }
    fdt.sizeDtStruct, fdt.sizeDtStrings := 0, 0;
    fdt.magic := FDT_SW_MAGIC;
    fdt.version := FDT_LAST_SUPPORTED_VERSION;
    fdt.lastCompVersion := FDT_FIRST_SUPPORTED_VERSION;
    fdt.totalsize := fdt.buf.Length;
    fdt.offMemRsvmap := (HEADER_SIZE + RESERVE_ENTRY_SIZE - 1) / RESERVE_ENTRY_SIZE * RESERVE_ENTRY_SIZE;
    fdt.offDtStruct := fdt.offMemRsvmap;
    fdt.offDtStrings := fdt.buf.Length;
    if fdt.buf.Length >= 48 {
      ConveysEmpty(Body(fdt), Tab(fdt));
    }
    return 0;
  }

  lemma ConveysEmpty(body: seq<byte>, tab: seq<byte>)
    requires body == [] && |tab| < U32 / 2
    ensures Conveys(body, tab, [])
  {
    hide Encodes, Says, Conveys;
    EncodesNil();
    SaysNothing(tab);
    ConveysTokens(body, tab, [], []);
  }

  /** Appends a memory reservation, before anything else is written. It looks only at the end of
      the buffer, so it keeps the state sound exactly if the strings are still clear of it. */
  method AddReservemapEntry(fdt: Fdt, r: Reservation) returns (err: int)
    requires Started(fdt) && IsReservation(r)
    modifies fdt`offDtStruct, fdt.buf
    ensures err == if fdt.sizeDtStruct != 0 then -ERR_BADSTATE
                   else if old(fdt.offDtStruct) + RESERVE_ENTRY_SIZE > fdt.totalsize then -ERR_NOSPACE else 0
    ensures Started(fdt)
    ensures err != 0 ==> fdt.offDtStruct == old(fdt.offDtStruct) && fdt.buf[..] == old(fdt.buf[..])
    ensures err == 0 ==>
              && fdt.offDtStruct == old(fdt.offDtStruct) + RESERVE_ENTRY_SIZE
              && fdt.buf[..fdt.offDtStruct] == old(fdt.buf[..fdt.offDtStruct]) + EntryBytes(r)
              && (Writing(fdt) <==> fdt.offDtStruct + fdt.sizeDtStrings <= fdt.totalsize)
              && (Writing(fdt) ==> Body(fdt) == [] && Tab(fdt) == old(Tab(fdt)))
  {
    hide Be32, FdtSplice.Wrote, EntryBytes;
    if fdt.sizeDtStruct != 0 {
      return -ERR_BADSTATE;
    }
    var offset := fdt.offDtStruct;
    if offset + RESERVE_ENTRY_SIZE > fdt.totalsize {
      return -ERR_NOSPACE;
    }
    Store(fdt.buf, offset, EntryBytes(r));
    EntryStored(old(fdt.buf[..]), fdt.buf[..], offset, EntryBytes(r));
    fdt.offDtStruct := offset + RESERVE_ENTRY_SIZE;
    return 0;
  }

  lemma EntryStored(b: seq<byte>, now: seq<byte>, at: nat, entry: seq<byte>)
    requires at + |entry| <= |b| && FdtSplice.Wrote(b, now, at, entry)
    ensures |now| == |b| && now[..at + |entry|] == b[..at] + entry
    ensures forall x: nat | at + |entry| <= x <= |b| :: now[x..|b|] == b[x..|b|]
  {
  }
}
