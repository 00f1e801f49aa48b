/** Editing a blob without moving bytes: tags are overwritten with padding. */
module FdtWip {
  import opened Bytes
  import opened FdtFormat
  import opened FdtTree
  import opened FdtNodes
  import opened FdtProps
  import opened FdtEdits
  import opened FdtRo
  import opened FdtRsv
  import opened FdtBlob
  import opened FdtSplice
  import opened FdtRw
  import opened FdtPath

  /** `n` padding tags. */
  function NopBytes(n: nat): (s: seq<byte>)
    ensures |s| == 4 * n
  {
    if n == 0 then [] else Be32(FDT_NOP) + NopBytes(n - 1)
  }

  lemma {:induction false} NopsEncode(n: nat)
    ensures Encodes(NopBytes(n), Padding(n))
  {
    if n > 0 {
      hide Be32;
      var s := NopBytes(n);
      assert s[..4] == Be32(FDT_NOP) && s[4..] == NopBytes(n - 1) && Padding(n)[1..] == Padding(n - 1);
      NopsEncode(n - 1);
    }
  }

  lemma {:induction false} NopsGrow(n: nat)
    ensures NopBytes(n + 1) == NopBytes(n) + Be32(FDT_NOP)
  {
    hide Be32;
    if n == 0 {
      assert Be32(FDT_NOP) + [] == [] + Be32(FDT_NOP);
    } else {
      NopsGrow(n - 1);
    }
  }

  /** Overwrites `len` bytes of the structure block, rounded up to whole tags, with padding. */
  method NopRegion(fdt: Fdt, start: int, len: int)
    requires fdt.Laid() && 0 <= start && 0 <= len && start + TagAlign(len) <= fdt.sizeDtStruct
    modifies fdt.buf
    ensures Wrote(old(fdt.Struct()), fdt.Struct(), start, NopBytes(TagAlign(len) / 4))
    ensures fdt.Strings() == old(fdt.Strings()) && fdt.Outside() == old(fdt.Outside())
  {
    hide Wrote, Be32, NopBytes, Window, ReservationsIn;
    var p := start;
    ghost var n: nat := 0;
    WroteNothing(fdt.Struct(), start);
    while p < start + len
      invariant p == start + 4 * n && 4 * n <= TagAlign(len)
      invariant Wrote(old(fdt.Struct()), fdt.Struct(), start, NopBytes(n))
      invariant fdt.Strings() == old(fdt.Strings()) && fdt.Outside() == old(fdt.Outside())
    {
      ghost var was := fdt.Struct();
      StoreStruct(fdt, p, Be32(FDT_NOP));
      WroteMore(old(fdt.Struct()), was, fdt.Struct(), start, n);
      p := p + 4;
      n := n + 1;
    }
  }

  lemma WroteNothing(s: seq<byte>, x: nat)
    requires x <= |s|
    ensures Wrote(s, s, x, NopBytes(0))
  {
    assert s == s[..x] + [] + s[x..];
  }

  lemma WroteMore(s: seq<byte>, s1: seq<byte>, s2: seq<byte>, x: nat, n: nat)
    requires Wrote(s, s1, x, NopBytes(n)) && Wrote(s1, s2, x + 4 * n, Be32(FDT_NOP))
    ensures Wrote(s, s2, x, NopBytes(n + 1))
  {
    hide Be32, NopBytes;
    NopsGrow(n);
    var (a, b) := (NopBytes(n), Be32(FDT_NOP));
    assert s1[..x + 4 * n] == s[..x] + a;
    assert s1[x + 4 * n + 4..] == s[x + 4 * n..][4..] == s[x + 4 * n + 4..];
    assert s2 == s[..x] + (a + b) + s[x + 4 * n + 4..];
  }

  /** Padding over a run of tokens exchanges exactly those tokens for padding. */
  lemma PadTokens(w: seq<byte>, w': seq<byte>, ts: seq<Token>, i: nat, j: nat, n: nat)
    requires IsBlock(w, ts) && i <= j <= |ts| && Off(ts, j) == Off(ts, i) + 4 * n
    requires Wrote(w, w', Off(ts, i), NopBytes(n))
    ensures IsBlock(w', ts[..i] + Padding(n) + ts[j..])
  {
    hide IsBlock, Encodes, Size, NopBytes, Padding;
    NopsEncode(n);
    BlockReplace(w, ts, i, j, NopBytes(n), Padding(n));
  }

  lemma {:induction false} PaddingNamed(n: nat, strs: seq<byte>)
    ensures Named(Padding(n), strs)
  {
    if n > 0 {
      PaddingNamed(n - 1, strs);
    }
  }

  /** Padding over a property: the tree without that property. */
  method NopProperty(fdt: Fdt, nodeoffset: int, name: seq<byte>) returns (err: int)
    requires fdt.WellFormed() && Plausible(fdt.Struct(), nodeoffset)
    modifies fdt.buf
    ensures fdt.WellFormed() && fdt.Strings() == old(fdt.Strings())
    ensures fdt.Outside() == old(fdt.Outside()) && fdt.Reservations() == old(fdt.Reservations())
    ensures err == -ERR_BADOFFSET <==> !IsNode(old(fdt.Struct()), nodeoffset)
    ensures err == -ERR_NOTFOUND <==> NoSuchProp(old(fdt.Struct()), old(fdt.Strings()), nodeoffset, name)
    ensures err == 0 ==>
              fdt.Root() == WithoutProp(old(fdt.Root()),
                                        PathAt(old(fdt.Struct()), old(fdt.Strings()), old(fdt.Root()), nodeoffset),
                                        name)
    ensures err != 0 ==> fdt.Struct() == old(fdt.Struct()) && fdt.Root() == old(fdt.Root())
    ensures err == 0 ==>
              var (w, strs) := (old(fdt.Struct()), old(fdt.Strings()));
              match PropFrom(Toks(w), NodeTok(w, nodeoffset) + 1, strs, name)
              case None => false
              case Some(k) =>
                && k < |Toks(w)| && Off(Toks(w), k) <= Off(Toks(w), k + 1)
                && Wrote(w, fdt.Struct(), Off(Toks(w), k), NopBytes((Off(Toks(w), k + 1) - Off(Toks(w), k)) / 4))
  {
    hide Block, Walk, IsBlock, Toks, Meaning, Flatten, IndexOf, Size, PropFrom, CStr, OnNode, NodeTok, IsNode, Parse,
         PathAt, Named, U32At, TagAlign, Denotes, Plausible, Lookup, WithoutProp, Wrote, NopBytes, NoSuchProp, Deleted,
         Window, ReservationsIn;
    ghost var (w, strs, t) := (fdt.Struct(), fdt.Strings(), fdt.Root());
    var prop, len := FindProperty(fdt, nodeoffset, name);
    if prop.None? {
      DeleteMissed(w, strs, t, nodeoffset, name, len);
      DeletedMeans(w, strs, t, nodeoffset, name, w, len);
      RootIs(fdt, t);
      return len;
    }
    ghost var k := LookupHit(w, strs, t, nodeoffset, name, prop.value, len);
    AlignHeader(len);
    NopRegion(fdt, prop.value, len + 12);
    NoppedDenotes(w, fdt.Struct(), strs, t, nodeoffset, name, k);
    RootIs(fdt, WithoutProp(t, PathAt(w, strs, t, nodeoffset), name));
    err := 0;
  }

  lemma AlignHeader(len: nat)
    ensures TagAlign(len + 12) == 12 + TagAlign(len)
  {
  }

  lemma DeletedMeans(w: seq<byte>, strs: seq<byte>, t: Node, off: int, name: seq<byte>, w': seq<byte>, err: int)
    requires Denotes(w, strs, t) && Plausible(w, off) && Deleted(w, strs, t, off, name, w', err)
    ensures err == -ERR_BADOFFSET <==> !IsNode(w, off)
    ensures err == -ERR_NOTFOUND <==> NoSuchProp(w, strs, off, name)
  {
    hide Walk, IsBlock, Toks, Meaning, Flatten, IndexOf, PropFrom, NextTag, WithoutProp, PathAt;
  }

  lemma NoppedDenotes(w: seq<byte>, w': seq<byte>, strs: seq<byte>, t: Node, off: int, name: seq<byte>, k: nat)
    requires Denotes(w, strs, t) && Plausible(w, off) && IsNode(w, off) && |w'| < U32 / 2
    requires PropFrom(Toks(w), NodeTok(w, off) + 1, strs, name) == Some(k)
    requires (Off(Toks(w), k + 1) - Off(Toks(w), k)) % 4 == 0 && Off(Toks(w), k) <= Off(Toks(w), k + 1)
    requires Wrote(w, w', Off(Toks(w), k), NopBytes((Off(Toks(w), k + 1) - Off(Toks(w), k)) / 4))
    ensures OnNode(w, off) && Denotes(w', strs, WithoutProp(t, PathAt(w, strs, t, off), name))
    ensures !NoSuchProp(w, strs, off, name)
  {
    hide Walk, IsBlock, Toks, Meaning, Flatten, IndexOf, Size, PropFrom, CStr, NodeIndex, WithoutProp, Wrote, NopBytes,
         OnNode, NodeTok, NextTag;
    var (ts, path) := (Toks(w), PathAt(w, strs, t, off));
    var n := (Off(ts, k + 1) - Off(ts, k)) / 4;
    PadTokens(w, w', ts, k, k + 1, n);
    Delete(ts, strs, t, path, name, k, n);
    PaddingNamed(n, strs);
    NamedEdit(ts, k, Padding(n), k + 1, strs);
    DenotesTokens(w', ts[..k] + Padding(n) + ts[k + 1..], strs, WithoutProp(t, path, name));
  }

  /** Padding over a node: the tree without that node. A tree is left exactly if it is not the root. */
  method NopNode(fdt: Fdt, nodeoffset: int) returns (err: int)
    requires fdt.WellFormed() && Plausible(fdt.Struct(), nodeoffset)
    modifies fdt.buf
    ensures fdt.Strings() == old(fdt.Strings())
    ensures fdt.Outside() == old(fdt.Outside()) && fdt.Reservations() == old(fdt.Reservations())
    ensures err == 0 <==> IsNode(old(fdt.Struct()), nodeoffset)
    ensures err != 0 ==> fdt.Struct() == old(fdt.Struct())
    ensures err != 0 ==> err == if nodeoffset < 0 then nodeoffset else -ERR_BADOFFSET
    ensures err == 0 ==>
              var (ts, i) := (Toks(old(fdt.Struct())), NodeTok(old(fdt.Struct()), nodeoffset));
              && NodeEnd(ts, i).Some? && nodeoffset <= Off(ts, NodeEnd(ts, i).value)
              && Wrote(old(fdt.Struct()), fdt.Struct(), nodeoffset,
                       NopBytes((Off(ts, NodeEnd(ts, i).value) - nodeoffset) / 4))
    ensures err == 0 ==>
              var path := PathAt(old(fdt.Struct()), old(fdt.Strings()), old(fdt.Root()), nodeoffset);
              && (fdt.WellFormed() <==> path != [])
              && (path != [] ==> fdt.Root() == Prune(old(fdt.Root()), path))
  {
    hide Block, Walk, IsBlock, Toks, Meaning, Flatten, IndexOf, Size, CStr, OnNode, NodeTok, Parse,
         PathAt, Named, Denotes, NextTag, Prune, CloseFrom, Wrote, NopBytes, TagAlign, Window, ReservationsIn;
    ghost var (w, strs, t) := (fdt.Struct(), fdt.Strings(), fdt.Root());
    var end := FindNodeEnd(fdt, nodeoffset);
    if end < 0 {
      return end;
    }
    ghost var path := PathAt(w, strs, t, nodeoffset);
    ghost var e := NodeEnd(Toks(w), NodeTok(w, nodeoffset)).value;
    SpanAligned(w, nodeoffset, e);
    NopRegion(fdt, nodeoffset, end - nodeoffset);
    PaddedDenotes(w, fdt.Struct(), strs, t, nodeoffset, e);
    if path != [] {
      RootIs(fdt, Prune(t, path));
    }
    err := 0;
  }

  lemma SpanAligned(w: seq<byte>, off: int, e: nat)
    requires Block(w) && OnNode(w, off) && e <= |Toks(w)| && off <= Off(Toks(w), e)
    ensures (Off(Toks(w), e) - off) % 4 == 0
    ensures TagAlign(Off(Toks(w), e) - off) == Off(Toks(w), e) - off
  {
    hide Walk, IsBlock, Toks, IndexOf, Size;
    SizeAligned(Toks(w)[..e]);
    SizeAligned(Toks(w)[..NodeTok(w, off)]);
  }

  lemma PaddedDenotes(w: seq<byte>, w': seq<byte>, strs: seq<byte>, t: Node, off: int, e: nat)
    requires Denotes(w, strs, t) && OnNode(w, off) && |w'| < U32 / 2
    requires NodeEnd(Toks(w), NodeTok(w, off)) == Some(e) && off <= Off(Toks(w), e) && (Off(Toks(w), e) - off) % 4 == 0
    requires Wrote(w, w', off, NopBytes((Off(Toks(w), e) - off) / 4))
    ensures PathAt(w, strs, t, off) != [] ==> Denotes(w', strs, Prune(t, PathAt(w, strs, t, off)))
    ensures PathAt(w, strs, t, off) == [] ==> Block(w') && Parse(Meaning(Toks(w'), strs)).None?
  {
    hide Walk, IsBlock, Toks, Meaning, Flatten, IndexOf, Size, CStr, NodeIndex, Prune, Wrote, CloseFrom,
         NopBytes, Parse;
    var (ts, path, i) := (Toks(w), PathAt(w, strs, t, off), NodeTok(w, off));
    var n := (Off(ts, e) - off) / 4;
    PadTokens(w, w', ts, i, e, n);
    RemoveNode(ts, strs, t, path, n);
    if path == [] {
      NoTree(w', ts[..i] + Padding(n) + ts[e..], strs);
    } else {
      PaddingNamed(n, strs);
      NamedEdit(ts, i, Padding(n), e, strs);
      DenotesTokens(w', ts[..i] + Padding(n) + ts[e..], strs, Prune(t, path));
    }
  }

  /** The smallest blob has only a root: cut out or padded over, it leaves no tree. */
  lemma RootRemoved(w: seq<byte>)
    requires Gap(SMALLEST, w, 0, 12, 0) || Wrote(SMALLEST, w, 0, NopBytes(3))
    ensures Denotes(SMALLEST, [], Node([], [], [])) && OnNode(SMALLEST, 0)
    ensures Block(w) && Parse(Meaning(Toks(w), [])).None?
  {
    hide Walk, IsBlock, Denotes, Toks, Size, IndexOf, Parse, Meaning, Gap, Wrote, NopBytes, CloseFrom, PathAt, Block;
    SmallestDenotes();
    RootOfSmallest();
    RootOffset(SMALLEST, [], Node([], [], []));
    if Gap(SMALLEST, w, 0, 12, 0) {
      GapSize(SMALLEST, w, 0, 12);
      PrunedDenotes(SMALLEST, w, [], Node([], [], []), 0, 2);
    } else {
      WroteSize(SMALLEST, w, 0, NopBytes(3));
      PaddedDenotes(SMALLEST, w, [], Node([], [], []), 0, 2);
    }
  }

  lemma RootOfSmallest()
    ensures Block(SMALLEST) && OnNode(SMALLEST, 0)
    ensures NodeEnd(Toks(SMALLEST), 0) == Some(2) && Off(Toks(SMALLEST), 2) == 12
  {
    hide Walk, IsBlock, Toks, Size, IndexOf;
    SmallestDenotes();
    var ts := [Begin([]), EndNode];
    OffStart(ts);
    OffNext(ts, 0);
    OffNext(ts, 1);
    IndexOfOff(ts, 0);
    assert CloseFrom(ts, 1, 0) == Some(2);
  }

  lemma GapSize(s: seq<byte>, t: seq<byte>, o: nat, len: nat)
    requires Gap(s, t, o, len, 0)
    ensures |t| == |s| - len
  {
  }

  lemma WroteSize(s: seq<byte>, t: seq<byte>, x: nat, bytes: seq<byte>)
    requires Wrote(s, t, x, bytes)
    ensures |t| == |s|
  {
  }

  /** Padding over a node and splicing it out give the same tree, or for the root both give none. */
  method NopOrDelete(nopped: Fdt, cut: Fdt, nodeoffset: int)
    requires nopped.buf != cut.buf && nopped.WellFormed() && cut.WellFormed()
    requires nopped.Struct() == cut.Struct() && nopped.Strings() == cut.Strings()
    requires Plausible(cut.Struct(), nodeoffset)
    modifies nopped.buf, cut`sizeDtStruct, cut`offDtStrings, cut.buf
    ensures nopped.WellFormed() <==> cut.WellFormed()
    ensures cut.WellFormed() ==> nopped.Root() == cut.Root()
  {
    hide Block, Walk, IsBlock, Toks, Meaning, Flatten, IndexOf, Size, CStr, OnNode, NodeTok, Parse, PathAt, Named,
         Denotes, NextTag, Prune;
    var e1 := NopNode(nopped, nodeoffset);
    var e2 := DelNode(cut, nodeoffset);
  }
}
