/** Adding a child to a node of a complete blob. */
module FdtAddNode {
  import opened Bytes
  import opened FdtFormat
  import opened FdtTree
  import opened FdtNodes
  import opened FdtEdits
  import opened FdtRo
  import opened FdtRsv
  import opened FdtBlob
  import opened FdtSplice
  import opened FdtRw
  import opened FdtPath

  /** The bytes of an empty node: begin tag, padded name, end tag. */
  function NodeBytes(name: seq<byte>): (s: seq<byte>)
    ensures |s| == 4 + TagAlign(|name| + 1) + 4
  {
    Be32(FDT_BEGIN_NODE) + (name + seq(TagAlign(|name| + 1) - |name|, _ => 0)) + Be32(FDT_END_NODE)
  }

  lemma NodeBytesEncode(name: seq<byte>)
    requires 0 !in name
    ensures Encodes(NodeBytes(name), [Begin(name), EndNode])
  {
    hide Be32, TagAlign, U32At;
    var pad := seq(TagAlign(|name| + 1) - |name|, _ => 0);
    var (b, s) := (Be32(FDT_BEGIN_NODE) + (name + pad), Be32(FDT_END_NODE));
    CellFirst(FDT_BEGIN_NODE, name + pad);
    CellFirst(FDT_END_NODE, []);
    assert s + [] == s;
    assert b[4..4 + |name| + 1] == (name + pad)[..|name| + 1] == name + [0];
    EncodesOne(b, Begin(name));
    EncodesOne(s, EndNode);
    EncodesConcat(b, [Begin(name)], s, [EndNode]);
    assert [Begin(name)] + [EndNode] == [Begin(name), EndNode];
  }

  lemma CellFirst(v: int, rest: seq<byte>)
    requires 0 <= v < U32
    ensures U32At(Be32(v) + rest, 0) == v
  {
    hide Be32;
    var b := Be32(v);
    assert forall i | 0 <= i < 4 :: (b + rest)[i] == b[i];
  }

  /** The offset behind the properties of a node. In front of the block the reader only has an error to
      give, and that is taken for the offset. */
  method SkipProps(w: seq<byte>, strs: seq<byte>, parent: int, ghost t: Node) returns (offset: int)
    requires Denotes(w, strs, t) && (parent < 0 || OnNode(w, parent))
    ensures parent < 0 ==> offset == -ERR_TRUNCATED
    ensures parent >= 0 ==> offset == Off(Toks(w), AfterProps(Toks(w), NodeTok(w, parent) + 1))
  {
    hide Walk, IsBlock, Toks, Meaning, Flatten, IndexOf, Size, Block, OnNode, NodeTok, AfterProps, NextTag, Named;
    ghost var i: nat := 0;
    if parent >= 0 {
      i := NodeTok(w, parent);
      TokenKind(w, i);
      PropsStop(w, strs, t, parent);
    }
    ghost var j: nat := i + 1;
    BeforeBlock(w, parent);
    BeforeBlock(w, -ERR_TRUNCATED);
    var next := NextTag(w, parent).1;
    while true
      invariant parent < 0 ==> next == -ERR_TRUNCATED && j == i + 1
      invariant parent >= 0 ==> i + 1 <= j < |Toks(w)| && next == Off(Toks(w), j)
                                && AfterProps(Toks(w), i + 1) == AfterProps(Toks(w), j)
      decreases if parent < 0 then 0 else |Toks(w)| - j
    {
      offset := next;
      if parent >= 0 {
        TokenKind(w, j);
        AfterPropsStep(Toks(w), j);
      }
      var (tag, nx) := NextTag(w, offset);
      if tag != FDT_PROP && tag != FDT_NOP {
        break;
      }
      next := nx;
      j := j + 1;
    }
  }

  lemma BeforeBlock(w: seq<byte>, o: int)
    ensures o < 0 ==> NextTag(w, o) == (FDT_END, -ERR_TRUNCATED)
  {
  }

  /** A block that starts with the rest of a node put in front of it stands for no tree: its first word
      is the node's end tag, or no tag. */
  lemma NodeInFront(w: seq<byte>, name: seq<byte>, strs: seq<byte>)
    requires 0 !in name && NodeBytes(name)[ERR_TRUNCATED..] <= w
    ensures Block(w) ==> Parse(Meaning(Toks(w), strs)).None?
  {
    hide Walk, IsBlock, Toks, Parse, Meaning, NodeBytes;
    FirstWord(w, name);
    if Block(w) {
      FirstToken(w);
      StartsWithClose(Toks(w), strs);
      NoTree(w, Toks(w), strs);
    }
  }

  lemma FirstWord(w: seq<byte>, name: seq<byte>)
    requires 0 !in name && NodeBytes(name)[ERR_TRUNCATED..] <= w
    ensures |w| >= 4 && (U32At(w, 0) == FDT_END_NODE || U32At(w, 0) == 0 || U32At(w, 0) >= 0x100_0000)
  {
    var s := NodeBytes(name);
    assert forall i | 0 <= i < 4 :: w[i] == s[8 + i];
    if |name| > 4 {
      assert s[8] == name[4];
      assert name[4] in name;
    }
  }

  lemma FirstToken(w: seq<byte>)
    requires Block(w) && |w| >= 4 && (U32At(w, 0) == FDT_END_NODE || U32At(w, 0) == 0 || U32At(w, 0) >= 0x100_0000)
    ensures Toks(w) != [] && Toks(w)[0] == EndNode
  {
  }

  lemma StartsWithClose(ts: seq<Token>, strs: seq<byte>)
    requires ts != [] && ts[0] == EndNode
    ensures Meaning(ts, strs) != [] && Meaning(ts, strs)[0] == Close
  {
  }

  /** The new child starts where the properties of its parent end. */
  lemma ChildOffset(w: seq<byte>, w': seq<byte>, strs: seq<byte>, t: Node, off: int, name: seq<byte>)
    requires Denotes(w, strs, t) && OnNode(w, off) && 0 !in name && |w'| < U32 / 2
    requires var o := Off(Toks(w), AfterProps(Toks(w), NodeTok(w, off) + 1));
             0 <= o <= |w| && w' == w[..o] + NodeBytes(name) + w[o..]
    ensures OffsetIs(w', strs, WithChild(t, PathAt(w, strs, t, off), name), PathAt(w, strs, t, off) + [0],
                     Off(Toks(w), AfterProps(Toks(w), NodeTok(w, off) + 1)))
  {
    hide Walk, IsBlock, Toks, Meaning, Flatten, FlattenAll, FlattenProps, IndexOf, Size, CStr, NodeIndex, AfterProps,
         NodeBytes, Encodes, Put, Get, IsPath, Before;
    var (ts, path) := (Toks(w), PathAt(w, strs, t, off));
    var (p, us, t') := (AfterProps(Toks(w), NodeTok(w, off) + 1), [Begin(name), EndNode], WithChild(t, path, name));
    NodeBytesEncode(name);
    BlockReplace(w, ts, p, p, NodeBytes(name), us);
    AddChild(ts, strs, t, path, name);
    NamedEdit(ts, p, us, p, strs);
    var ts' := ts[..p] + us + ts[p..];
    DenotesTokens(w', ts', strs, t');
    FirstChildBefore(t, path, name);
    AfterPropsCut(ts, strs, t, path);
    assert ts'[..p] == ts[..p] && ts'[p] == Begin(name);
    NodeAt(ts', strs, t', path + [0], p);
  }

  lemma FirstChildBefore(t: Node, path: seq<nat>, name: seq<byte>)
    requires IsPath(t, path)
    ensures var (t', n) := (WithChild(t, path, name), Get(t, path));
            && IsPath(t', path + [0])
            && Before(t', path + [0]) == Before(t, path) + [Open(n.name)] + FlattenProps(n.props)
  {
    hide Put, Get, IsPath, Before, FlattenProps;
    var n := Get(t, path);
    var n' := n.(children := [Node(name, [], [])] + n.children);
    PutAt(t, path, n');
    PathSnoc(WithChild(t, path, name), path, 0);
    HeadOfFirst(n');
    assert Before(t, path) + ([Open(n.name)] + FlattenProps(n.props))
        == Before(t, path) + [Open(n.name)] + FlattenProps(n.props);
  }

  lemma HeadOfFirst(n: Node)
    requires n.children != []
    ensures Head(n, 0) == [Open(n.name)] + FlattenProps(n.props)
  {
    hide FlattenProps;
    assert n.children[..0] == [];
  }

  /** `now` is `b` with `bytes` put in at `p` and the data up to `end` moved out of the way. */
  predicate Pushed(b: seq<byte>, now: seq<byte>, p: nat, bytes: seq<byte>, end: nat) {
    && p <= end && end + |bytes| <= |b| == |now| && now[..p] == b[..p] && now[p..p + |bytes|] == bytes
    && now[p + |bytes|..end + |bytes|] == b[p..end]
  }

  /** Opens room at `p` and puts `bytes` there. */
  method PutBytes(fdt: Fdt, p: int, bytes: seq<byte>) returns (err: int)
    requires fdt.Laid() && 0 <= p <= fdt.offDtStruct + fdt.sizeDtStruct
    modifies fdt`sizeDtStruct, fdt`offDtStrings, fdt.buf
    ensures fdt.Laid() && SameHeader(fdt) && fdt.sizeDtStrings == old(fdt.sizeDtStrings)
    ensures err == if old(fdt.offDtStrings) + fdt.sizeDtStrings + |bytes| > fdt.totalsize then -ERR_NOSPACE else 0
    ensures err != 0 ==> fdt.buf[..] == old(fdt.buf[..])
    ensures err != 0 ==> fdt.sizeDtStruct == old(fdt.sizeDtStruct) && fdt.offDtStrings == old(fdt.offDtStrings)
    ensures err == 0 ==> fdt.sizeDtStruct == old(fdt.sizeDtStruct) + |bytes|
    ensures err == 0 ==> fdt.offDtStrings == old(fdt.offDtStrings) + |bytes|
    ensures err == 0 ==> Pushed(old(fdt.buf[..]), fdt.buf[..], p, bytes, old(fdt.offDtStrings) + fdt.sizeDtStrings)
    ensures fdt.buf[fdt.totalsize..] == old(fdt.buf[fdt.totalsize..])
  {
    hide Spliced, Wrote, Pushed;
    err := SpliceAt(fdt, p, 0, |bytes|);
    if err == 0 {
      ghost var mid := fdt.buf[..];
      Store(fdt.buf, p, bytes);
      PushedIs(old(fdt.buf[..]), mid, fdt.buf[..], p, bytes, old(fdt.offDtStrings) + fdt.sizeDtStrings);
      PushedBehind(old(fdt.buf[..]), mid, fdt.buf[..], p, bytes, old(fdt.offDtStrings) + fdt.sizeDtStrings,
                   fdt.totalsize);
    }
  }

  lemma PushedIs(b: seq<byte>, mid: seq<byte>, now: seq<byte>, p: nat, bytes: seq<byte>, end: nat)
    requires p <= end && end + |bytes| <= |b|
    requires mid == Spliced(b, p, 0, |bytes|, end) && Wrote(mid, now, p, bytes)
    ensures Pushed(b, now, p, bytes, end)
  {
    assert now == b[..p] + bytes + b[p..end] + b[end + |bytes|..];
  }

  lemma PushedBehind(b: seq<byte>, mid: seq<byte>, now: seq<byte>, p: nat, bytes: seq<byte>, end: nat, total: nat)
    requires p <= end && end + |bytes| <= total <= |b|
    requires mid == Spliced(b, p, 0, |bytes|, end) && Wrote(mid, now, p, bytes)
    ensures |now| == |b| && now[total..] == b[total..]
  {
  }

  /** `w'` is the structure block `w` with `bytes` put in at offset `o`. In front of the block they push it
      up together with the end of `front`, which is what stands there. */
  predicate Placed(w: seq<byte>, w': seq<byte>, front: seq<byte>, o: int, bytes: seq<byte>) {
    && -|bytes| <= o <= |w| && 0 <= |front| + o
    && w' == if o >= 0 then w[..o] + bytes + w[o..] else bytes[-o..] + (front[|front| + o..] + w)
  }

  /** The same in the buffer, where the block lies from `off` to `e` and `bytes` are put in at `p`. */
  function Inserted(b: seq<byte>, off: nat, e: nat, p: nat, bytes: seq<byte>): seq<byte>
    requires off - |bytes| <= p <= e && off <= e <= |b|
  {
    var s := b[off..e];
    if p >= off then s[..p - off] + bytes + s[p - off..] else bytes[off - p..] + b[p..off] + s
  }

  /** Writes an empty node at `o`. */
  method InsertNode(fdt: Fdt, o: int, name: seq<byte>) returns (err: int)
    requires fdt.Laid() && -ERR_TRUNCATED <= o <= fdt.sizeDtStruct
    modifies fdt`sizeDtStruct, fdt`offDtStrings, fdt.buf
    ensures fdt.Laid() && SameHeader(fdt) && fdt.Strings() == old(fdt.Strings())
    ensures fdt.Outside().1 == old(fdt.Outside()).1
    ensures err != 0 || o >= 0 ==> fdt.Outside() == old(fdt.Outside())
    ensures err == 0 && o < 0 ==> Overrun(old(fdt.Outside()).0, fdt.Outside().0, NodeBytes(name), -o)
    ensures err == if old(fdt.offDtStrings) + fdt.sizeDtStrings + 8 + TagAlign(|name| + 1) > fdt.totalsize
                   then -ERR_NOSPACE else 0
    ensures err != 0 ==> fdt.Struct() == old(fdt.Struct())
    ensures err == 0 ==>
              Placed(old(fdt.Struct()), fdt.Struct(), old(fdt.buf[..])[..fdt.offDtStruct], o, NodeBytes(name))
  {
    hide Placed, Pushed, NodeBytes, TagAlign, Window, Overrun, ReservationsIn;
    err := PutBytes(fdt, fdt.offDtStruct + o, NodeBytes(name));
    if err != 0 {
      return;
    }
    BlocksAfter(old(fdt.buf[..]), fdt.buf[..], fdt.offDtStruct, old(fdt.sizeDtStruct), fdt.sizeDtStruct, o,
                NodeBytes(name), old(fdt.offDtStrings), fdt.offDtStrings, fdt.sizeDtStrings);
    OutsideAfter(old(fdt.buf[..]), fdt.buf[..], fdt.offDtStruct, o, NodeBytes(name),
                 old(fdt.offDtStrings) + fdt.sizeDtStrings, fdt.totalsize);
  }

  /** The last `n` bytes in front of the block are overwritten with the first ones of `bytes`. */
  predicate Overrun(front: seq<byte>, front': seq<byte>, bytes: seq<byte>, n: nat) {
    n <= |front| && n <= |bytes| && front' == front[..|front| - n] + bytes[..n]
  }

  lemma OutsideAfter(b: seq<byte>, now: seq<byte>, off: nat, o: int, bytes: seq<byte>, end: nat, total: nat)
    requires -|bytes| <= o && 0 <= off + o <= end && end + |bytes| <= total <= |b| && off <= end
    requires Pushed(b, now, off + o, bytes, end) && now[total..] == b[total..]
    ensures |now| == |b| && Window(now, total, |b| - total) == Window(b, total, |b| - total)
    ensures o >= 0 ==> Window(now, 0, off) == Window(b, 0, off)
    ensures o < 0 ==> Overrun(Window(b, 0, off), Window(now, 0, off), bytes, -o)
  {
    var p := off + o;
    assert now[total..|now|] == now[total..] && b[total..|b|] == b[total..];
    if o >= 0 {
      assert now[0..off] == now[..p][..off] && b[0..off] == b[..p][..off];
    } else {
      Parts(now, 0, p, off);
      SliceSlice(now, p, p + |bytes|, 0, -o);
      assert now[0..p] == now[..p] && b[0..off][..p] == b[..p] && bytes[0..-o] == bytes[..-o];
    }
  }

  lemma BlocksAfter(b: seq<byte>, now: seq<byte>, off: nat, size: nat, size': nat, o: int, bytes: seq<byte>,
                    strs: nat, strs': nat, strsize: nat)
    requires -|bytes| <= o <= size && 0 <= off + o && off + size <= strs
    requires size' == size + |bytes| && strs' == strs + |bytes|
    requires Pushed(b, now, off + o, bytes, strs + strsize)
    ensures |now| == |b| && off + size' <= |b| && strs' + strsize <= |b|
    ensures Placed(Window(b, off, size), Window(now, off, size'), b[..off], o, bytes)
    ensures Window(now, strs', strsize) == Window(b, strs, strsize)
  {
    hide Inserted, Placed;
    InsertedBlocks(b, now, off, size, size', off + o, bytes, strs, strs', strsize);
    InsertedIs(b, off, size, o, bytes);
  }

  lemma InsertedBlocks(b: seq<byte>, now: seq<byte>, off: nat, size: nat, size': nat, p: nat,
                       bytes: seq<byte>, strs: nat, strs': nat, strsize: nat)
    requires off - |bytes| <= p <= off + size <= strs
    requires size' == size + |bytes| && strs' == strs + |bytes|
    requires Pushed(b, now, p, bytes, strs + strsize)
    ensures |now| == |b| && off + size' <= |b| && strs' + strsize <= |b|
    ensures now[off..off + size'] == Inserted(b, off, off + size, p, bytes)
    ensures now[strs'..strs' + strsize] == b[strs..strs + strsize]
  {
    hide Inserted;
    MovedPart(b, now, p, |bytes|, strs + strsize, strs, strs + strsize);
    InsertedAt(b, now, off, off + size, p, bytes, strs + strsize);
  }

  lemma InsertedAt(b: seq<byte>, now: seq<byte>, off: nat, e: nat, p: nat, bytes: seq<byte>, end: nat)
    requires off - |bytes| <= p <= e <= end && off <= e && Pushed(b, now, p, bytes, end)
    ensures now[off..e + |bytes|] == Inserted(b, off, e, p, bytes)
  {
    MovedPart(b, now, p, |bytes|, end, p, e);
    if p >= off {
      PutInside(b, now, off, p, e, bytes);
    } else {
      PutBefore(b, now, off, p, e, bytes);
    }
  }

  lemma InsertedIs(b: seq<byte>, off: nat, size: nat, o: int, bytes: seq<byte>)
    requires -|bytes| <= o <= size && 0 <= off + o && off + size <= |b|
    ensures Placed(b[off..off + size], Inserted(b, off, off + size, off + o, bytes), b[..off], o, bytes)
  {
    assert o < 0 ==> b[..off][off + o..] == b[off + o..off];
  }

  lemma MovedPart(b: seq<byte>, now: seq<byte>, p: nat, n: nat, end: nat, x: nat, y: nat)
    requires p <= x <= y <= end && end + n <= |b| == |now| && now[p + n..end + n] == b[p..end]
    ensures now[x + n..y + n] == b[x..y]
  {
    SliceSlice(b, p, end, x - p, y - p);
    SliceSlice(now, p + n, end + n, x - p, y - p);
  }

  lemma PutInside(b: seq<byte>, now: seq<byte>, off: nat, p: nat, e: nat, bytes: seq<byte>)
    requires off <= p <= e && e + |bytes| <= |b| == |now|
    requires now[..p] == b[..p] && now[p..p + |bytes|] == bytes && now[p + |bytes|..e + |bytes|] == b[p..e]
    ensures now[off..e + |bytes|] == b[off..e][..p - off] + bytes + b[off..e][p - off..]
  {
    Parts(now, off, p, e + |bytes|);
    Parts(now, p, p + |bytes|, e + |bytes|);
    SliceSlice(now, 0, p, off, p);
    SliceSlice(b, 0, p, off, p);
    SliceSlice(b, off, e, 0, p - off);
    SliceSlice(b, off, e, p - off, e - off);
  }

  lemma PutBefore(b: seq<byte>, now: seq<byte>, off: nat, p: nat, e: nat, bytes: seq<byte>)
    requires p <= off <= e && off <= p + |bytes| && e + |bytes| <= |b| == |now|
    requires now[p..p + |bytes|] == bytes && now[p + |bytes|..e + |bytes|] == b[p..e]
    ensures now[off..e + |bytes|] == bytes[off - p..] + b[p..off] + b[off..e]
  {
    Parts(now, off, p + |bytes|, e + |bytes|);
    Parts(b, p, off, e);
    SliceSlice(now, p, p + |bytes|, off - p, |bytes|);
  }

  lemma Parts(s: seq<byte>, x: nat, y: nat, z: nat)
    requires x <= y <= z <= |s|
    ensures s[x..z] == s[x..y] + s[y..z]
  {
  }

  /** Whether an empty node fits. */
  predicate NodeFits(end: int, name: seq<byte>, totalsize: int) {
    end + 8 + TagAlign(|name| + 1) <= totalsize
  }

  /** Adds an empty child as the first child of a node, unless a child of that name exists. The
      result is the offset of the new node. A negative offset is somebody else's error code and is
      returned, except that -ERR_NOTFOUND is taken for a parent without such a child: the node is
      then written in front of the structure block, and no tree is left. */
  method AddSubnode(fdt: Fdt, parent: int, name: seq<byte>) returns (r: int)
    requires fdt.WellFormed() && Plausible(fdt.Struct(), parent) && 0 !in name && |name| < U32 / 2 - 16
    modifies fdt`sizeDtStruct, fdt`offDtStrings, fdt.buf
    ensures fdt.Complete() && SameHeader(fdt) && fdt.Strings() == old(fdt.Strings())
    ensures fdt.WellFormed() <==>
            parent != -ERR_NOTFOUND || !NodeFits(old(fdt.offDtStrings + fdt.sizeDtStrings), name, fdt.totalsize)
    ensures parent == -ERR_NOTFOUND ==> r == if fdt.WellFormed() then -ERR_NOSPACE else -ERR_TRUNCATED
    ensures fdt.WellFormed() ==> fdt.Outside() == old(fdt.Outside()) && fdt.Reservations() == old(fdt.Reservations())
    ensures !fdt.WellFormed() ==>
              && fdt.Outside().1 == old(fdt.Outside()).1
              && Overrun(old(fdt.Outside()).0, fdt.Outside().0, NodeBytes(name), ERR_TRUNCATED)
    ensures !fdt.WellFormed() ==> Placed(old(fdt.Struct()), fdt.Struct(), old(fdt.buf[..])[..fdt.offDtStruct],
                                         -ERR_TRUNCATED, NodeBytes(name))
    ensures parent < 0 && parent != -ERR_NOTFOUND ==> r == parent
    ensures parent >= 0 && !IsNode(old(fdt.Struct()), parent) ==> r == -ERR_BADOFFSET
    ensures IsNode(old(fdt.Struct()), parent) ==>
              var (t, path) := (old(fdt.Root()),
                                PathAt(old(fdt.Struct()), old(fdt.Strings()), old(fdt.Root()), parent));
              && (r == -ERR_EXISTS <==> FirstMatch(Get(t, path).children, name).Some?)
              && (r == -ERR_EXISTS || r == -ERR_NOSPACE || r >= 0)
              && (r == -ERR_NOSPACE <==>
                  && FirstMatch(Get(t, path).children, name).None?
                  && !NodeFits(old(fdt.offDtStrings + fdt.sizeDtStrings), name, fdt.totalsize))
              && (r >= 0 ==> && fdt.Root() == WithChild(t, path, name)
                             && OffsetIs(fdt.Struct(), fdt.Strings(), fdt.Root(), path + [0], r))
    ensures r < 0 && fdt.WellFormed() ==> fdt.Struct() == old(fdt.Struct()) && fdt.Root() == old(fdt.Root())
  {
    hide Block, Walk, IsBlock, Toks, Meaning, Flatten, IndexOf, Size, OnNode, NodeTok, Parse, IsNode, FirstMatch,
         NodeBytes, PathAt, Named, Denotes, NextTag, WithChild, AfterProps, ChildFrom, Get, TagAlign, Plausible,
         OffsetIs, Placed, Overrun, Window, ReservationsIn;
    ghost var (w, strs, t) := (fdt.Struct(), fdt.Strings(), fdt.Root());
    PlausibleMeans(w, parent);
    var offset := SubnodeOffset(fdt.Struct(), parent, name);
    SubnodeMeans(w, strs, t, parent, name, offset);
    RootIs(fdt, t);
    if offset >= 0 {
      return -ERR_EXISTS;
    } else if offset != -ERR_NOTFOUND {
      return offset;
    }
    offset := SkipProps(fdt.Struct(), fdt.Strings(), parent, t);
    PlaceInBlock(w, parent);
    var err := InsertNode(fdt, offset, name);
    if err != 0 {
      RootIs(fdt, t);
      return err;
    }
    PlacedMeans(w, fdt.Struct(), old(fdt.buf[..])[..fdt.offDtStruct], offset, NodeBytes(name));
    if parent < 0 {
      NodeInFront(fdt.Struct(), name, strs);
      return offset;
    }
    ChildOffset(w, fdt.Struct(), strs, t, parent, name);
    OffsetDenotes(fdt.Struct(), strs, WithChild(t, PathAt(w, strs, t, parent), name),
                  PathAt(w, strs, t, parent) + [0], offset);
    RootIs(fdt, WithChild(t, PathAt(w, strs, t, parent), name));
    return offset;
  }

  /** Adding the node "a" to no parent leaves the smallest blob, behind an empty reservation, unreadable. */
  lemma AddedToNothing()
    ensures Denotes(SMALLEST, [], Node([], [], []))
    ensures forall w | Placed(SMALLEST, w, seq(8, _ => 0), -ERR_TRUNCATED, NodeBytes([97])) :: !Block(w)
  {
    hide NodeBytes, Denotes, Block, Walk;
    SmallestDenotes();
    NodeA();
    assert NodeBytes([97])[8..] == [0, 0, 0, 2];
    forall w | Placed(SMALLEST, w, seq(8, _ => 0), -ERR_TRUNCATED, NodeBytes([97]))
      ensures !Block(w)
    {
      Unreadable(w);
    }
  }

  lemma NodeA()
    ensures NodeBytes([97]) == [0, 0, 0, 1, 97, 0, 0, 0, 0, 0, 0, 2]
  {
  }

  lemma Unreadable(w: seq<byte>)
    requires |w| > 8 && U32At(w, 0) == FDT_END_NODE && U32At(w, 4) == 0
    ensures !Block(w)
  {
    assert NextTag(w, 0) == (FDT_END_NODE, 4) && NextTag(w, 4) == (FDT_END, -ERR_BADSTRUCTURE);
    assert Walk(w, 4) == None;
  }

  lemma PlacedMeans(w: seq<byte>, w': seq<byte>, front: seq<byte>, o: int, bytes: seq<byte>)
    requires Placed(w, w', front, o, bytes)
    ensures o >= 0 ==> w' == w[..o] + bytes + w[o..]
    ensures o < 0 ==> bytes[-o..] <= w'
  {
  }

  lemma OffsetDenotes(w: seq<byte>, strs: seq<byte>, t: Node, at: seq<nat>, off: int)
    requires OffsetIs(w, strs, t, at, off)
    ensures Denotes(w, strs, t) && off >= 0
  {
  }

  lemma PlausibleMeans(w: seq<byte>, off: int)
    requires Plausible(w, off)
    ensures Block(w) && (IsNode(w, off) ==> OnNode(w, off))
  {
  }

  lemma PlaceInBlock(w: seq<byte>, off: int)
    requires Block(w) && (off < 0 || OnNode(w, off))
    ensures off >= 0 ==> Off(Toks(w), AfterProps(Toks(w), NodeTok(w, off) + 1)) <= |w|
  {
    hide Walk, Toks, IndexOf, Size, AfterProps, Encodes;
    if off >= 0 {
      var ts := Toks(w);
      NextTagAtEnd(w, ts);
      OffMonotone(ts, AfterProps(ts, NodeTok(w, off) + 1), |ts|);
    }
  }

  /** What the search for an existing child tells. */
  lemma SubnodeMeans(w: seq<byte>, strs: seq<byte>, t: Node, parent: int, name: seq<byte>, r: int)
    requires Denotes(w, strs, t) && (IsNode(w, parent) ==> OnNode(w, parent))
    requires IsNode(w, parent) ==>
               match ChildFrom(Toks(w), NodeTok(w, parent) + 1, 0, name)
               case Some(k) => r == Off(Toks(w), k)
               case None => r == -ERR_NOTFOUND
    ensures IsNode(w, parent) ==>
              && (r >= 0 <==> FirstMatch(Get(t, PathAt(w, strs, t, parent)).children, name).Some?)
              && (r >= 0 || r == -ERR_NOTFOUND)
  {
    hide Walk, IsBlock, Toks, Meaning, Flatten, IndexOf, Size, NodeIndex, IsPath, FirstMatch, ChildFrom, Get, NodeTok,
         OnNode, NextTag, PathAt;
    if IsNode(w, parent) {
      ChildPlace(w, strs, t, parent, name);
    }
  }
}
