/** Finishing a sequentially written blob, and the round trip from tree to blob and back. */
module FdtFinish {
  import opened Bytes
  import opened FdtFormat
  import opened FdtTree
  import opened FdtProps
  import opened FdtRo
  import opened FdtRsv
  import opened FdtBlob
  import opened FdtSplice
  import opened FdtReloc
  import opened FdtSw

  /** Adding to the name offset of one property, in place, relocates that one token. */
  lemma RelocOne(w: seq<byte>, w': seq<byte>, ts: seq<Token>, k: nat, n: int)
    requires IsBlock(w, ts) && k < |ts| && ts[k].Prop? && |w| < U32 / 2
    requires FdtSplice.Wrote(w, w', Off(ts, k) + 8, Be32((ts[k].nameoff + n) % U32))
    ensures IsBlock(w', ts[..k] + [RelocToken(ts[k], n)] + ts[k + 1..])
  {
    hide Size, Encodes, U32At, Be32, TagAlign, HoldsProp;
    var (o, e, t) := (Off(ts, k), Off(ts, k + 1), ts[k]);
    EncodesAt(w[..|w| - 4], ts, k);
    assert w[..|w| - 4][o..e] == w[o..e];
    HoldsRelocated(w, w', o, t, (t.nameoff + n) % U32);
    BlockWithProp(w, w', ts, k, k + 1, (t.nameoff + n) % U32, t.value);
  }

  lemma HoldsRelocated(w: seq<byte>, w': seq<byte>, o: nat, t: Token, nameoff: int)
    requires t.Prop? && o + TokLen(t) <= |w| && IsToken(w[o..o + TokLen(t)], t) && 0 <= nameoff < U32
    requires FdtSplice.Wrote(w, w', o + 8, Be32(nameoff))
    ensures HoldsProp(w, w', o, o + TokLen(t), nameoff, t.value)
  {
    hide U32At, Be32, TagAlign;
    var n := TokLen(t);
    U32Slice(w, o, o + n, 0);
    U32Slice(w, o, o + n, 4);
    SliceSlice(w, o, o + n, 12, 12 + |t.value|);
    WroteCell(w, w', o + 8, Be32(nameoff), o);
    WroteCell(w, w', o + 8, Be32(nameoff), o + 4);
    WroteHere(w, w', o + 8, nameoff);
    WroteSlices(w, w', o + 8, Be32(nameoff), 0, o);
    WroteSlices(w, w', o + 8, Be32(nameoff), o + 12, o + 12 + |t.value|);
    WroteSlices(w, w', o + 8, Be32(nameoff), o + n, |w|);
  }

  /** The first `k` tokens relocated, the others not yet. */
  function HalfReloc(ts: seq<Token>, n: int, k: nat): (rs: seq<Token>)
    requires k <= |ts|
    ensures |rs| == |ts|
  {
    Reloc(ts[..k], n) + ts[k..]
  }

  lemma HalfStep(ts: seq<Token>, n: int, k: nat)
    requires k < |ts|
    ensures HalfReloc(ts, n, k)[k] == ts[k]
    ensures HalfReloc(ts, n, k + 1)
            == HalfReloc(ts, n, k)[..k] + [RelocToken(ts[k], n)] + HalfReloc(ts, n, k)[k + 1..]
    ensures Off(HalfReloc(ts, n, k + 1), k + 1) == Off(HalfReloc(ts, n, k), k + 1)
  {
    hide TokLen;
    var (a, b) := (HalfReloc(ts, n, k), HalfReloc(ts, n, k + 1));
    assert ts[..k + 1] == ts[..k] + [ts[k]];
    RelocConcat(ts[..k], [ts[k]], n);
    assert b[..k] == a[..k] == Reloc(ts[..k], n);
    assert b[..k + 1] == a[..k] + [b[k]] && a[..k + 1] == a[..k] + [a[k]];
    SizeConcat(a[..k], [a[k]]);
    SizeConcat(a[..k], [b[k]]);
    SameLength(ts[k], n);
  }

  lemma SameLength(t: Token, n: int)
    ensures Size([t]) == Size([RelocToken(t, n)])
  {
  }

  lemma HalfEnds(ts: seq<Token>, n: int)
    ensures HalfReloc(ts, n, 0) == ts && HalfReloc(ts, n, |ts|) == Reloc(ts, n)
  {
    assert ts[..0] == [] && ts[0..] == ts && ts[..|ts|] == ts && ts[|ts|..] == [];
  }

  /** Walks the structure and makes every name offset count from the start of the strings. */
  method Relocate(fdt: Fdt, ghost ts: seq<Token>)
    requires fdt.Laid() && IsBlock(fdt.Struct(), ts)
    modifies fdt.buf
    ensures IsBlock(fdt.Struct(), Reloc(ts, fdt.sizeDtStrings)) && fdt.Strings() == old(fdt.Strings())
    ensures fdt.Outside() == old(fdt.Outside())
  {
    hide IsBlock, Size, U32At, Be32, HalfReloc, Reloc, NextTag, FdtSplice.Wrote, RelocToken, TokLen, Encodes;
    ghost var k: nat := 0;
    ghost var n := fdt.sizeDtStrings;
    var offset := 0;
    HalfEnds(ts, n);
    OffStart(ts);
    while true
      invariant k <= |ts| && IsBlock(fdt.Struct(), HalfReloc(ts, n, k)) && offset == Off(HalfReloc(ts, n, k), k)
      invariant fdt.Strings() == old(fdt.Strings()) && fdt.Outside() == old(fdt.Outside())
      decreases |ts| - k
    {
      ghost var rs := HalfReloc(ts, n, k);
      var (tag, next) := NextTag(fdt.Struct(), offset);
      TagOfHalf(fdt.Struct(), rs, k);
      if tag == FDT_END {
        break;
      }
      HalfStep(ts, n, k);
      PropCells(fdt.Struct(), rs, k);
      ghost var was := fdt.Struct();
      if tag == FDT_PROP {
        var nameoff := U32At(fdt.Struct(), offset + 8);
        StoreStruct(fdt, offset + 8, Be32((nameoff + fdt.sizeDtStrings) % U32));
        RelocOne(was, fdt.Struct(), rs, k, n);
      }
      OthersStay(rs, k, n);
      offset, k := next, k + 1;
    }
  }

  lemma TagOfHalf(w: seq<byte>, rs: seq<Token>, k: nat)
    requires IsBlock(w, rs) && k <= |rs| && |w| < U32 / 2
    ensures k < |rs| ==> NextTag(w, Off(rs, k)) == (TagOf(rs[k]), Off(rs, k + 1))
    ensures k == |rs| ==> NextTag(w, Off(rs, k)).0 == FDT_END
  {
    hide IsBlock, Size, NextTag;
    if k < |rs| {
      NextTagAt(w, rs, k);
    } else {
      NextTagAtEnd(w, rs);
    }
  }

  lemma PropCells(w: seq<byte>, rs: seq<Token>, k: nat)
    requires IsBlock(w, rs) && k < |rs|
    ensures rs[k].Prop? ==> Off(rs, k) + 12 <= |w| && U32At(w, Off(rs, k) + 8) == rs[k].nameoff
  {
    hide Size, U32At, Encodes;
    if rs[k].Prop? {
      var (o, e) := (Off(rs, k), Off(rs, k + 1));
      EncodesAt(w[..|w| - 4], rs, k);
      assert w[..|w| - 4][o..e] == w[o..e];
      U32Slice(w, o, e, 8);
    }
  }

  lemma OthersStay(rs: seq<Token>, k: nat, n: int)
    requires k < |rs|
    ensures !rs[k].Prop? ==> rs[..k] + [RelocToken(rs[k], n)] + rs[k + 1..] == rs
  {
  }

  /** Ends the structure, moves the strings behind it and makes the blob complete. Whatever was
      written denotes afterwards exactly the tree it spelled out. */
  method Finish(fdt: Fdt, ghost es: seq<Event>) returns (err: int)
    requires Writing(fdt) && fdt.offMemRsvmap + RESERVE_ENTRY_SIZE <= fdt.offDtStruct
    requires Conveys(Body(fdt), Tab(fdt), es)
    modifies fdt, fdt.buf
    ensures err == if old(fdt.offDtStruct + fdt.sizeDtStruct + 4 + fdt.sizeDtStrings) <= old(fdt.totalsize)
                   then 0 else -ERR_NOSPACE
    ensures err != 0 ==> Writing(fdt) && Body(fdt) == old(Body(fdt)) && Tab(fdt) == old(Tab(fdt))
                         && Front(fdt) == old(Front(fdt))
    ensures err == 0 ==> fdt.Complete() && fdt.Strings() == old(Tab(fdt))
                         && fdt.totalsize == fdt.offDtStrings + fdt.sizeDtStrings
                         && fdt.offDtStrings == fdt.offDtStruct + fdt.sizeDtStruct
                         && fdt.sizeDtStruct == old(fdt.sizeDtStruct) + 4
                         && fdt.offMemRsvmap == old(fdt.offMemRsvmap) && fdt.Outside().0 == old(Front(fdt))
                         && Delivers(fdt.Struct(), fdt.Strings(), es)
  {
    hide Grown, Be32, Conveys, Says, Encodes, IsBlock, Size, Reloc, Delivers;
    ghost var (body, tab) := (Body(fdt), Tab(fdt));
    var ok := Append(fdt, Be32(FDT_END), 4);
    if !ok {
      return -ERR_NOSPACE;
    }
    ghost var ts := Written(body, tab, es);
    Ended(body, Body(fdt), ts);
    MoveStrings(fdt);
    Relocate(fdt, ts);
    Publish(fdt);
    Delivered(fdt.Struct(), ts, tab, es);
    return 0;
  }

  /** Adjusts the header of a blob whose blocks are in place. */
  method Publish(fdt: Fdt)
    requires fdt.Laid() && fdt.version == 17 && fdt.lastCompVersion == 16
    modifies fdt`totalsize, fdt`magic
    ensures fdt.Complete() && fdt.Struct() == old(fdt.Struct()) && fdt.Strings() == old(fdt.Strings())
    ensures fdt.Outside().0 == old(fdt.Outside()).0
    ensures fdt.totalsize == fdt.offDtStrings + fdt.sizeDtStrings
  {
    fdt.totalsize := fdt.offDtStrings + fdt.sizeDtStrings;
    fdt.magic := FDT_MAGIC;
  }

  /** The blocks denote whatever tree the events spell out. */
  ghost predicate Delivers(w: seq<byte>, tab: seq<byte>, es: seq<Event>) {
    forall t | es == Flatten(t) :: Denotes(w, tab, t)
  }

  lemma Delivered(w: seq<byte>, ts: seq<Token>, tab: seq<byte>, es: seq<Event>)
    requires Says(ts, tab, es) && IsBlock(w, Reloc(ts, |tab|)) && |w| < U32 / 2
    ensures Delivers(w, tab, es)
  {
    hide Says, Denotes, Flatten, IsBlock, Reloc;
    forall t | es == Flatten(t)
      ensures Denotes(w, tab, t)
    {
      SaysTree(w, ts, tab, es, t);
    }
  }

  lemma SaysTree(w: seq<byte>, ts: seq<Token>, tab: seq<byte>, es: seq<Event>, t: Node)
    requires Says(ts, tab, es) && es == Flatten(t) && IsBlock(w, Reloc(ts, |tab|)) && |w| < U32 / 2
    ensures Denotes(w, tab, t)
  {
    hide IsBlock, Meaning, Flatten, Reloc;
    DenotesTokens(w, Reloc(ts, |tab|), tab, t);
  }

  lemma Ended(s: seq<byte>, t: seq<byte>, ts: seq<Token>)
    requires Encodes(s, ts) && Grown(s, t, Be32(FDT_END), 4)
    ensures IsBlock(t, ts)
  {
    hide Encodes, Be32;
    var seg := t[|s|..];
    assert t[..|t| - 4] == s && seg[..4] == seg == Be32(FDT_END);
    assert seg[0..4] == seg;
    Cell(seg, Be32(FDT_END), 0, FDT_END);
    U32Slice(t, |s|, |t|, 0);
  }

  /** Moves the strings from the end of the buffer to the end of the structure. */
  method MoveStrings(fdt: Fdt)
    requires Writing(fdt) && fdt.offMemRsvmap + RESERVE_ENTRY_SIZE <= fdt.offDtStruct
    modifies fdt`offDtStrings, fdt.buf
    ensures fdt.Laid() && fdt.Struct() == old(Body(fdt)) && fdt.Strings() == old(Tab(fdt))
    ensures fdt.Outside().0 == old(Front(fdt))
    ensures fdt.offDtStrings == fdt.offDtStruct + fdt.sizeDtStruct
  {
    hide FdtSplice.Wrote;
    var newstroffset := fdt.offDtStruct + fdt.sizeDtStruct;
    var oldstroffset := fdt.totalsize - fdt.sizeDtStrings;
    Store(fdt.buf, newstroffset, fdt.buf[..][oldstroffset..fdt.totalsize]);
    fdt.offDtStrings := newstroffset;
    StringsMoved(old(fdt.buf[..]), fdt.buf[..], fdt.offDtStruct, newstroffset, old(Tab(fdt)));
  }

  lemma StringsMoved(b: seq<byte>, now: seq<byte>, off: nat, at: nat, tab: seq<byte>)
    requires off <= at && at + |tab| <= |b| && FdtSplice.Wrote(b, now, at, tab)
    ensures |now| == |b| && Window(now, off, at - off) == Window(b, off, at - off) && Window(now, at, |tab|) == tab
    ensures Window(now, 0, off) == Window(b, 0, off)
  {
  }

  // ---------------------------------------------------------------- how much room a tree takes

  function EventLen(e: Event): nat {
    match e
    case Open(name) => TokLen(Begin(name))
    case Attr(p) => TokLen(Prop(0, p.value))
    case Close => 4
  }

  function BodyLen(es: seq<Event>): nat {
    if es == [] then 0 else EventLen(es[0]) + BodyLen(es[1..])
  }

  /** The strings after all names of `es` were looked up in turn. */
  ghost function Strs(tab: seq<byte>, es: seq<Event>): seq<byte>
    decreases |es|
  {
    if es == [] then tab
    else Strs(if es[0].Attr? then WithString(tab, es[0].prop.name) else tab, es[1..])
  }

  /** There is room for `es` behind a structure that ends at `top`. */
  ghost predicate Fits(top: int, tab: seq<byte>, es: seq<Event>, total: int) {
    top + BodyLen(es) + |Strs(tab, es)| <= total
  }

  lemma {:induction false} FitsConcat(top: int, tab: seq<byte>, a: seq<Event>, b: seq<Event>, total: int)
    ensures BodyLen(a + b) == BodyLen(a) + BodyLen(b)
    ensures Strs(tab, a + b) == Strs(Strs(tab, a), b)
    ensures Fits(top, tab, a + b, total) <==> Fits(top + BodyLen(a), Strs(tab, a), b, total)
    decreases |a|
  {
    hide WithString, EventLen;
    if a == [] {
      assert a + b == b;
    } else {
      assert (a + b)[1..] == a[1..] + b;
      FitsConcat(top, if a[0].Attr? then WithString(tab, a[0].prop.name) else tab, a[1..], b, total);
    }
  }

  lemma {:induction false} StrsGrow(tab: seq<byte>, es: seq<Event>)
    ensures |tab| <= |Strs(tab, es)|
    decreases |es|
  {
    hide Holds;
    if es != [] {
      StrsGrow(if es[0].Attr? then WithString(tab, es[0].prop.name) else tab, es[1..]);
    }
  }

  /** Where a part does not fit, the whole does not. */
  lemma FitsPrefix(top: int, tab: seq<byte>, a: seq<Event>, b: seq<Event>, total: int)
    ensures Fits(top, tab, a + b, total) ==> Fits(top, tab, a, total)
  {
    hide BodyLen, Strs;
    FitsConcat(top, tab, a, b, total);
    StrsGrow(Strs(tab, a), b);
  }

  lemma FitsOne(top: int, tab: seq<byte>, e: Event, total: int)
    ensures BodyLen([e]) == EventLen(e)
    ensures Strs(tab, [e]) == if e.Attr? then WithString(tab, e.prop.name) else tab
    ensures Fits(top, tab, [e], total) <==>
            top + EventLen(e) + |if e.Attr? then WithString(tab, e.prop.name) else tab| <= total
  {
    hide WithString, EventLen;
    assert [e][1..] == [];
  }

  // ---------------------------------------------------------------- a whole tree

  /** Names are C strings and values have a length an int can hold. */
  predicate Writable(n: Node) {
    && 0 !in n.name
    && (forall p | p in n.props :: 0 !in p.name && |p.value| < U32 / 2 - 16)
    && (forall c | c in n.children :: Writable(c))
  }

  /** The writer has written `done` since it stood at `top` with strings `tab` and events `es`. */
  ghost predicate Stands(fdt: Fdt, top: int, tab: seq<byte>, es: seq<Event>, done: seq<Event>)
    reads fdt, fdt.buf
  {
    && Writing(fdt) && Conveys(Body(fdt), Tab(fdt), es + done)
    && fdt.offDtStruct + fdt.sizeDtStruct == top + BodyLen(done) && Tab(fdt) == Strs(tab, done)
  }

  /** One event further. */
  lemma OneFurther(top: int, tab: seq<byte>, es: seq<Event>, done: seq<Event>, e: Event, total: int)
    ensures es + done + [e] == es + (done + [e])
    ensures BodyLen(done + [e]) == BodyLen(done) + EventLen(e)
    ensures Strs(tab, done + [e]) == if e.Attr? then WithString(Strs(tab, done), e.prop.name) else Strs(tab, done)
    ensures Fits(top, tab, done + [e], total) <==>
            top + BodyLen(done) + EventLen(e) + |Strs(tab, done + [e])| <= total
  {
    hide WithString, EventLen, BodyLen, Strs;
    FitsConcat(top, tab, done, [e], total);
    FitsOne(top + BodyLen(done), Strs(tab, done), e, total);
  }

  /** Writes the properties of a node. */
  method WriteProps(fdt: Fdt, ps: seq<Property>, ghost es: seq<Event>) returns (err: int)
    requires Writing(fdt) && Conveys(Body(fdt), Tab(fdt), es)
    requires forall p | p in ps :: 0 !in p.name && |p.value| < U32 / 2 - 16
    modifies fdt`sizeDtStruct, fdt`sizeDtStrings, fdt.buf
    ensures Writing(fdt) && err in {0, -ERR_NOSPACE} && Front(fdt) == old(Front(fdt))
    ensures err == 0 <==> Fits(old(fdt.offDtStruct + fdt.sizeDtStruct), old(Tab(fdt)), FlattenProps(ps), fdt.totalsize)
    ensures err == 0 ==> Stands(fdt, old(fdt.offDtStruct + fdt.sizeDtStruct), old(Tab(fdt)), es, FlattenProps(ps))
  {
    hide Conveys, Fits, BodyLen, Strs, WithString, FlattenProps, TokLen, Window;
    ghost var (top, tab) := (fdt.offDtStruct + fdt.sizeDtStruct, Tab(fdt));
    StandsStart(top, tab, es, fdt.totalsize);
    NothingSaid([]);
    assert ps[..0] == [];
    for i := 0 to |ps|
      invariant Stands(fdt, top, tab, es, FlattenProps(ps[..i]))
      invariant Fits(top, tab, FlattenProps(ps[..i]), fdt.totalsize)
      invariant Front(fdt) == old(Front(fdt))
    {
      ghost var done := FlattenProps(ps[..i]);
      PropsPrefix(ps, i);
      OneFurther(top, tab, es, done, Attr(ps[i]), fdt.totalsize);
      FitsPrefix(top, tab, FlattenProps(ps[..i + 1]), FlattenProps(ps[i + 1..]), fdt.totalsize);
      err := WriteProperty(fdt, ps[i].name, ps[i].value, es + done);
      if err != 0 {
        return;
      }
    }
    assert ps[..|ps|] == ps;
    return 0;
  }

  lemma StandsStart(top: int, tab: seq<byte>, es: seq<Event>, total: int)
    ensures es + [] == es && BodyLen([]) == 0 && Strs(tab, []) == tab
    ensures Fits(top, tab, [], total) <==> top + |tab| <= total
  {
  }

  lemma PropsPrefix(ps: seq<Property>, i: nat)
    requires i < |ps|
    ensures FlattenProps(ps[..i + 1]) == FlattenProps(ps[..i]) + [Attr(ps[i])]
    ensures FlattenProps(ps) == FlattenProps(ps[..i + 1]) + FlattenProps(ps[i + 1..])
  {
    hide FlattenProps;
    Cut(ps, i);
    FlattenPropsConcat(ps[..i], [ps[i]]);
    FlattenPropsConcat(ps[..i + 1], ps[i + 1..]);
    OneProp(ps[i]);
  }

  lemma Cut<T>(s: seq<T>, i: nat)
    requires i < |s|
    ensures s[..i + 1] == s[..i] + [s[i]] && s == s[..i + 1] + s[i + 1..]
  {
  }

  lemma NodesPrefix(ns: seq<Node>, i: nat)
    requires i < |ns|
    ensures FlattenAll(ns[..i + 1]) == FlattenAll(ns[..i]) + Flatten(ns[i])
    ensures FlattenAll(ns) == FlattenAll(ns[..i + 1]) + FlattenAll(ns[i + 1..])
  {
    hide FlattenAll, Flatten;
    Cut(ns, i);
    FlattenAllConcat(ns[..i], [ns[i]]);
    FlattenAllConcat(ns[..i + 1], ns[i + 1..]);
    FlattenOne(ns[i]);
  }

  /** A stretch further. */
  lemma StretchFurther(top: int, tab: seq<byte>, es: seq<Event>, done: seq<Event>, more: seq<Event>, total: int)
    ensures es + done + more == es + (done + more)
    ensures BodyLen(done + more) == BodyLen(done) + BodyLen(more)
    ensures Strs(tab, done + more) == Strs(Strs(tab, done), more)
    ensures Fits(top, tab, done + more, total) <==> Fits(top + BodyLen(done), Strs(tab, done), more, total)
  {
    hide BodyLen, Strs;
    FitsConcat(top, tab, done, more, total);
  }

  /** Writes a tree with begin, property and end calls. It succeeds exactly if the tree fits. */
  method WriteTree(fdt: Fdt, t: Node, ghost es: seq<Event>) returns (err: int)
    requires Writing(fdt) && Conveys(Body(fdt), Tab(fdt), es) && Writable(t)
    modifies fdt`sizeDtStruct, fdt`sizeDtStrings, fdt.buf
    ensures Writing(fdt) && err in {0, -ERR_NOSPACE} && Front(fdt) == old(Front(fdt))
    ensures err == 0 <==> Fits(old(fdt.offDtStruct + fdt.sizeDtStruct), old(Tab(fdt)), Flatten(t), fdt.totalsize)
    ensures err == 0 ==> Stands(fdt, old(fdt.offDtStruct + fdt.sizeDtStruct), old(Tab(fdt)), es, Flatten(t))
    decreases t, 1
  {
    hide Conveys, Fits, BodyLen, Strs, WithString, FlattenProps, FlattenAll, Flatten, TokLen, Body, Tab;
    ghost var (top, tab, total) := (fdt.offDtStruct + fdt.sizeDtStruct, Tab(fdt), fdt.totalsize);
    ghost var (a, b, c) := ([Open(t.name)], FlattenProps(t.props), FlattenAll(t.children));
    TreeParts(top, tab, t, total);
    StretchFurther(top, tab, es, a, b, total);
    StretchFurther(top, tab, es, a + b, c, total);
    StretchFurther(top, tab, es, a + b + c, [Close], total);
    err := WriteBegin(fdt, t.name, es);
    if err != 0 {
      return;
    }
    err := WriteProps(fdt, t.props, es + a);
    if err != 0 {
      return;
    }
    err := WriteNodes(fdt, t.children, es + (a + b));
    if err != 0 {
      return;
    }
    err := WriteEnd(fdt, es + (a + b + c));
  }

  method WriteNodes(fdt: Fdt, ns: seq<Node>, ghost es: seq<Event>) returns (err: int)
    requires Writing(fdt) && Conveys(Body(fdt), Tab(fdt), es) && forall n | n in ns :: Writable(n)
    modifies fdt`sizeDtStruct, fdt`sizeDtStrings, fdt.buf
    ensures Writing(fdt) && err in {0, -ERR_NOSPACE} && Front(fdt) == old(Front(fdt))
    ensures err == 0 <==> Fits(old(fdt.offDtStruct + fdt.sizeDtStruct), old(Tab(fdt)), FlattenAll(ns), fdt.totalsize)
    ensures err == 0 ==> Stands(fdt, old(fdt.offDtStruct + fdt.sizeDtStruct), old(Tab(fdt)), es, FlattenAll(ns))
    decreases ns, 0
  {
    hide Conveys, Fits, BodyLen, Strs, WithString, FlattenAll, Flatten, TokLen, Writable;
    ghost var (top, tab) := (fdt.offDtStruct + fdt.sizeDtStruct, Tab(fdt));
    StandsStart(top, tab, es, fdt.totalsize);
    NothingSaid([]);
    assert ns[..0] == [];
    for i := 0 to |ns|
      invariant Stands(fdt, top, tab, es, FlattenAll(ns[..i]))
      invariant Fits(top, tab, FlattenAll(ns[..i]), fdt.totalsize)
      invariant Front(fdt) == old(Front(fdt))
    {
      ghost var done := FlattenAll(ns[..i]);
      NodesPrefix(ns, i);
      StretchFurther(top, tab, es, done, Flatten(ns[i]), fdt.totalsize);
      FitsPrefix(top, tab, FlattenAll(ns[..i + 1]), FlattenAll(ns[i + 1..]), fdt.totalsize);
      err := WriteTree(fdt, ns[i], es + done);
      if err != 0 {
        return;
      }
    }
    assert ns[..|ns|] == ns;
    return 0;
  }

  /** The four stretches of a node's events, and that none fits unless those before it do. */
  lemma TreeParts(top: int, tab: seq<byte>, t: Node, total: int)
    ensures var (a, b, c) := ([Open(t.name)], FlattenProps(t.props), FlattenAll(t.children));
            && Flatten(t) == a + b + c + [Close]
            && BodyLen(a) == TokLen(Begin(t.name)) && Strs(tab, a) == tab
            && (Fits(top, tab, a, total) <==> top + TokLen(Begin(t.name)) + |tab| <= total)
            && BodyLen([Close]) == 4 && Strs(Strs(tab, a + b + c), [Close]) == Strs(tab, a + b + c)
            && (Fits(top + BodyLen(a + b + c), Strs(tab, a + b + c), [Close], total)
                <==> top + BodyLen(a + b + c) + 4 + |Strs(tab, a + b + c)| <= total)
            && (Fits(top, tab, Flatten(t), total) ==> Fits(top, tab, a + b + c, total))
            && (Fits(top, tab, a + b + c, total) ==> Fits(top, tab, a + b, total))
            && (Fits(top, tab, a + b, total) ==> Fits(top, tab, a, total))
  {
    hide BodyLen, Strs, FlattenProps, FlattenAll, WithString, Fits;
    var (a, b, c) := ([Open(t.name)], FlattenProps(t.props), FlattenAll(t.children));
    FitsOne(top, tab, Open(t.name), total);
    FitsOne(top + BodyLen(a + b + c), Strs(tab, a + b + c), Close, total);
    FitsPrefix(top, tab, a, b, total);
    FitsPrefix(top, tab, a + b, c, total);
    FitsPrefix(top, tab, a + b + c, [Close], total);
  }

  /** Bytes a blob takes: header, reservations with their end, structure, strings. */
  ghost function BlobSize(t: Node, rs: seq<Reservation>): nat {
    48 + 16 * (|rs| + 1) + BodyLen(Flatten(t)) + 4 + |Strs([], Flatten(t))|
  }

  /** Writes the reservations of a new blob and their end. */
  method WriteReservations(fdt: Fdt, rs: seq<Reservation>) returns (err: int)
    requires Started(fdt) && fdt.sizeDtStruct == fdt.sizeDtStrings == 0 && AreReservations(rs)
    requires fdt.offDtStruct == fdt.offMemRsvmap
    modifies fdt`offDtStruct, fdt.buf
    ensures err == if fdt.offMemRsvmap + 16 * (|rs| + 1) <= fdt.totalsize then 0 else -ERR_NOSPACE
    ensures err == 0 ==> Writing(fdt) && fdt.offDtStruct == fdt.offMemRsvmap + 16 * (|rs| + 1)
                         && ReservationsIn(Front(fdt), fdt.offMemRsvmap) == Some(BeforeEnd(rs))
  {
    hide EntryBytes, EntriesBytes, ReservationsIn, BeforeEnd;
    ghost var (all, off) := (rs + [Reservation(0, 0)], fdt.offMemRsvmap);
    NoEntries();
    assert all[..0] == [];
    for i := 0 to |rs| + 1
      invariant Started(fdt) && fdt.offDtStruct == off + 16 * i
      invariant i > 0 ==> Writing(fdt) && fdt.buf[off..fdt.offDtStruct] == EntriesBytes(all[..i])
    {
      ghost var b := fdt.buf[..];
      err := AddReservemapEntry(fdt, if i < |rs| then rs[i] else Reservation(0, 0));
      if err != 0 {
        return;
      }
      NextEntry(all, i);
      assert b[off..off + 16 * i] == EntriesBytes(all[..i]);
      Behind(b[..off + 16 * i], EntryBytes(all[i]), off);
    }
    assert all[..|rs| + 1] == all && all[|rs|].size == 0;
    SliceSlice(fdt.buf[..], 0, fdt.offDtStruct, fdt.offMemRsvmap, fdt.offDtStruct);
    EntriesRead(Front(fdt), fdt.offMemRsvmap, all);
    BeforeLast(rs, Reservation(0, 0));
    return 0;
  }

  lemma NoEntries()
    ensures EntriesBytes([]) == []
  {
  }

  lemma NextEntry(rs: seq<Reservation>, i: nat)
    requires AreReservations(rs) && i < |rs|
    ensures EntriesBytes(rs[..i + 1]) == EntriesBytes(rs[..i]) + EntryBytes(rs[i])
  {
    hide EntryBytes;
    assert rs[..i + 1][..i] == rs[..i];
  }

  lemma Behind(a: seq<byte>, b: seq<byte>, off: nat)
    requires off <= |a|
    ensures (a + b)[off..] == a[off..] + b
  {
  }

  /** Writes a whole blob: create, write the reservations, write the tree, finish. It succeeds exactly if the buffer
      has room, and then the blob reads back as exactly the tree written, and its reservations as those written up
      to the first one of no size. */
  method WriteBlob(fdt: Fdt, t: Node, rs: seq<Reservation>) returns (err: int)
    requires fdt.buf.Length < U32 / 2 && Writable(t) && AreReservations(rs)
    modifies fdt, fdt.buf
    ensures err == 0 <==> BlobSize(t, rs) <= fdt.buf.Length
    ensures err == 0 ==> fdt.WellFormed() && fdt.Root() == t && fdt.CheckHeader() == 0
    ensures err == 0 ==> fdt.Reservations() == Some(BeforeEnd(rs)) && fdt.totalsize == BlobSize(t, rs)
  {
    hide Conveys, BodyLen, Strs, WithString, Flatten, TokLen, Denotes, Says, Parse, Window, ReservationsIn, BeforeEnd;
    err := Create(fdt);
    if err != 0 {
      return;
    }
    err := WriteReservations(fdt, rs);
    if err != 0 {
      return;
    }
    ConveysEmpty(Body(fdt), Tab(fdt));
    err := WriteTree(fdt, t, []);
    if err != 0 {
      return;
    }
    assert [] + Flatten(t) == Flatten(t);
    err := Finish(fdt, Flatten(t));
    if err == 0 {
      RootIs(fdt, t);
    }
  }
}
