/** Editing a complete blob in place. */
module FdtRw {
  import opened Bytes
  import opened FdtFormat
  import opened FdtTree
  import opened FdtNodes
  import opened FdtProps
  import opened FdtEdits
  import opened FdtRo
  import opened FdtRsv
  import opened FdtBlob
  import opened FdtSplice

  /** An offset a caller may pass: that of a node, or one the begin-tag check turns down. */
  predicate Plausible(w: seq<byte>, off: int) {
    Block(w) && (IsNode(w, off) ==> OnNode(w, off))
  }

  /** The value of the root's property looks like a begin tag. */
  const MISLEADING: seq<byte> :=
    [0, 0, 0, 1, 0, 0, 0, 0]
    + ([0, 0, 0, 3, 0, 0, 0, 8, 0, 0, 0, 0, 0, 0, 0, 1, 0, 0, 0, 0] + ([0, 0, 0, 2] + [0, 0, 0, 9]))

  /** Its offset passes the begin-tag check, and no node is there. */
  lemma Misread()
    ensures Denotes(MISLEADING, [97, 0], Node([], [Property([97], [0, 0, 0, 1, 0, 0, 0, 0])], []))
    ensures !Plausible(MISLEADING, 20)
  {
    hide Walk, IsBlock, Toks, Size, IndexOf, Meaning, Flatten;
    var ts := [Begin([]), Prop(0, [0, 0, 0, 1, 0, 0, 0, 0]), EndNode];
    MisleadingBlock(ts);
    MisleadingEvents(ts);
    DenotesTokens(MISLEADING, ts, [97, 0], Node([], [Property([97], [0, 0, 0, 1, 0, 0, 0, 0])], []));
    OffStart(ts);
    OffNext(ts, 0);
    OffNext(ts, 1);
    NulAt(MISLEADING, 24);
  }

  lemma NulAt(s: seq<byte>, o: nat)
    requires o < |s| && s[o] == 0
    ensures NulEnd(s, o) == Some(o + 1)
  {
  }

  lemma MisleadingBlock(ts: seq<Token>)
    requires ts == [Begin([]), Prop(0, [0, 0, 0, 1, 0, 0, 0, 0]), EndNode]
    ensures IsBlock(MISLEADING, ts) && Named(ts, [97, 0]) && CStr([97, 0], 0) == Some([97])
  {
    hide IsBlock, TokLen, CStr, IsToken;
    var p := [0, 0, 0, 3, 0, 0, 0, 8, 0, 0, 0, 0, 0, 0, 0, 1, 0, 0, 0, 0];
    EmptyBlock();
    EndNodeToken([0, 0, 0, 2]);
    MisleadingProp(p);
    NameToken([0, 0, 0, 1, 0, 0, 0, 0], []);
    var w1, ts1 := PutToken([0, 0, 0, 2], EndNode, [0, 0, 0, 9], []);
    var w2, ts2 := PutToken(p, ts[1], w1, ts1);
    var w3, ts3 := PutToken([0, 0, 0, 1, 0, 0, 0, 0], Begin([]), w2, ts2);
    assert ts3 == ts;
    assert [97, 0][0..2] == [97] + [0];
    CStrAt([97, 0], 0, [97]);
  }

  lemma MisleadingProp(p: seq<byte>)
    requires p == [0, 0, 0, 3, 0, 0, 0, 8, 0, 0, 0, 0, 0, 0, 0, 1, 0, 0, 0, 0]
    ensures var t := Prop(0, [0, 0, 0, 1, 0, 0, 0, 0]); IsToken(p, t) && |p| == TokLen(t)
  {
  }

  lemma MisleadingEvents(ts: seq<Token>)
    requires ts == [Begin([]), Prop(0, [0, 0, 0, 1, 0, 0, 0, 0]), EndNode] && CStr([97, 0], 0) == Some([97])
    ensures Meaning(ts, [97, 0]) == Flatten(Node([], [Property([97], [0, 0, 0, 1, 0, 0, 0, 0])], []))
  {
    hide CStr;
    var p := Property([97], [0, 0, 0, 1, 0, 0, 0, 0]);
    assert [p][1..] == [];
    assert ts[1..][1..] == [EndNode] && [EndNode][1..] == [];
    assert Meaning(ts[1..], [97, 0]) == [Attr(p)] + Meaning([EndNode], [97, 0]);
  }

  lemma NamedEdit(ts: seq<Token>, i: nat, u: seq<Token>, j: nat, strs: seq<byte>)
    requires i <= j <= |ts| && Named(ts, strs) && Named(u, strs)
    ensures Named(ts[..i] + u + ts[j..], strs)
  {
    hide CStr;
  }

  /** An edit behind the begin tag at `off` leaves the tokens up to that tag alone. */
  predicate KeepsNode(w: seq<byte>, w': seq<byte>, off: int) {
    && Block(w) && Block(w') && OnNode(w, off)
    && NodeTok(w, off) < |Toks(w')| && Toks(w')[..NodeTok(w, off) + 1] == Toks(w)[..NodeTok(w, off) + 1]
  }

  /** After such an edit the node is still found at `off`, under the same path. */
  lemma NodeStays(w: seq<byte>, strs: seq<byte>, t: Node, w': seq<byte>, strs': seq<byte>, t': Node, off: int)
    requires Denotes(w, strs, t) && Denotes(w', strs', t') && strs <= strs' && KeepsNode(w, w', off)
    requires var path := PathAt(w, strs, t, off); IsPath(t', path) && Before(t', path) == Before(t, path)
    ensures OnNode(w', off) && PathAt(w', strs', t', off) == PathAt(w, strs, t, off)
  {
    hide Walk, IsBlock, Toks, Meaning, Flatten, IndexOf, Size, CStr, Before, Inner, IsPath, Get, NodeIndex, PathTo,
         RawIndex;
    var (ts, ts', i, path) := (Toks(w), Toks(w'), NodeTok(w, off), PathAt(w, strs, t, off));
    NodeStart(ts, strs, t, path);
    assert ts'[i] == ts'[..i + 1][i] == ts[i] && ts'[..i] == ts'[..i + 1][..i] == ts[..i];
    assert strs' == strs + strs'[|strs|..];
    MeaningExtend(ts[..i], strs, strs'[|strs|..]);
    IndexOfOff(ts', i);
    NodeAt(ts', strs', t', path, i);
    NodePathUnique(ts', strs', t', path);
  }

  lemma NodeAt(ts: seq<Token>, strs: seq<byte>, t: Node, path: seq<nat>, i: nat)
    requires Meaning(ts, strs) == Flatten(t) && IsPath(t, path) && i < |ts| && ts[i].Begin?
    requires Meaning(ts[..i], strs) == Before(t, path)
    ensures NodeIndex(ts, strs, t, path) == i
  {
    hide Meaning, Flatten, Before, IsPath, RawIndex;
    RawIndexUnique(ts, strs, i);
  }

  /** The bytes of a resized property stand for the tree with that property set. */
  lemma ResizedDenotes(w: seq<byte>, w': seq<byte>, strs: seq<byte>, t: Node, off: int, name: seq<byte>,
                       value: seq<byte>, k: nat)
    requires Denotes(w, strs, t) && OnNode(w, off) && |w'| < U32 / 2
    requires PropFrom(Toks(w), NodeTok(w, off) + 1, strs, name) == Some(k)
    requires HoldsProp(w, w', Off(Toks(w), k), Off(Toks(w), k + 1), Toks(w)[k].nameoff, value)
    ensures Denotes(w', strs, WithProp(t, PathAt(w, strs, t, off), name, value)) && KeepsNode(w, w', off)
  {
    hide Walk, IsBlock, Toks, Meaning, Flatten, IndexOf, Size, HoldsProp, PropFrom, CStr, NodeIndex, WithProp;
    var (ts, path, us) := (Toks(w), PathAt(w, strs, t, off), [Prop(Toks(w)[k].nameoff, value)]);
    BlockWithProp(w, w', ts, k, k + 1, ts[k].nameoff, value);
    SetExisting(ts, strs, t, path, name, value, k);
    NamedEdit(ts, k, us, k + 1, strs);
    DenotesTokens(w', ts[..k] + us + ts[k + 1..], strs, WithProp(t, path, name, value));
  }

  /** A longer strings block names the same tree and the same nodes. */
  lemma DenotesExtended(w: seq<byte>, strs: seq<byte>, more: seq<byte>, t: Node)
    requires Denotes(w, strs, t)
    ensures Denotes(w, strs + more, t)
    ensures forall off | OnNode(w, off) :: PathAt(w, strs + more, t, off) == PathAt(w, strs, t, off)
  {
    hide Walk, IsBlock, Toks, Meaning, Flatten, IndexOf, Size, CStr, NodeTok, OnNode, NodeIndex;
    MeaningExtend(Toks(w), strs, more);
    forall off | OnNode(w, off)
      ensures PathAt(w, strs + more, t, off) == PathAt(w, strs, t, off)
    {
      SamePath(Toks(w), strs, strs + more, t, PathAt(w, strs, t, off), PathAt(w, strs + more, t, off));
    }
  }

  lemma SamePath(ts: seq<Token>, strs: seq<byte>, strs': seq<byte>, t: Node, p: seq<nat>, q: seq<nat>)
    requires strs <= strs' && Named(ts, strs) && Meaning(ts, strs) == Flatten(t) == Meaning(ts, strs')
    requires IsPath(t, p) && IsPath(t, q) && NodeIndex(ts, strs, t, p) == NodeIndex(ts, strs', t, q)
    ensures p == q
  {
    hide Meaning, Flatten, CStr, NodeIndex, Before, Inner, IsPath, Get, After;
    NodeStart(ts, strs, t, p);
    NodeStart(ts, strs', t, q);
    var i := NodeIndex(ts, strs, t, p);
    assert strs' == strs + strs'[|strs|..];
    MeaningExtend(ts[..i], strs, strs'[|strs|..]);
    BeforeInjective(t, p, q);
  }

  /** The bytes of an added property stand for the tree with that property set. */
  lemma AddedDenotes(w: seq<byte>, w': seq<byte>, strs: seq<byte>, more: seq<byte>, t: Node, off: int,
                     name: seq<byte>, value: seq<byte>, nameoff: int)
    requires Denotes(w, strs, t) && OnNode(w, off) && |w'| < U32 / 2
    requires PropFrom(Toks(w), NodeTok(w, off) + 1, strs, name) == None
    requires CStr(strs + more, nameoff) == Some(name)
    requires HoldsProp(w, w', Off(Toks(w), NodeTok(w, off) + 1), Off(Toks(w), NodeTok(w, off) + 1), nameoff, value)
    ensures Denotes(w', strs + more, WithProp(t, PathAt(w, strs, t, off), name, value)) && KeepsNode(w, w', off)
  {
    hide Walk, IsBlock, Toks, Meaning, Flatten, IndexOf, Size, HoldsProp, PropFrom, CStr, NodeIndex, WithProp,
         OnNode, NodeTok, Get, IsPath, FindProp, PropPlace;
    var (ts, path, us, i) := (Toks(w), PathAt(w, strs, t, off), [Prop(nameoff, value)], NodeTok(w, off));
    DenotesExtended(w, strs, more, t);
    PropLookup(ts, strs, t, path, name);
    PropLookup(ts, strs + more, t, path, name);
    BlockWithProp(w, w', ts, i + 1, i + 1, nameoff, value);
    SetNew(ts, strs + more, t, path, name, value, nameoff);
    NamedEdit(ts, i + 1, us, i + 1, strs + more);
    DenotesTokens(w', ts[..i + 1] + us + ts[i + 1..], strs + more, WithProp(t, path, name, value));
  }

  /** In a tree the properties of a node never run into the end of the block. */
  lemma PropsStop(w: seq<byte>, strs: seq<byte>, t: Node, off: int)
    requires Denotes(w, strs, t) && OnNode(w, off)
    ensures AfterProps(Toks(w), NodeTok(w, off) + 1) < |Toks(w)|
  {
    hide Walk, IsBlock, Toks, Flatten, IndexOf, Size, CStr, NodeIndex, OnNode, NodeTok, AfterProps, Rest;
    var path := PathAt(w, strs, t, off);
    AfterPropsCut(Toks(w), strs, t, path);
    RestStart(t, path);
  }

  /** The bytes a blob grows by when a property is set. */
  ghost function Growth(ps: seq<Property>, strs: seq<byte>, name: seq<byte>, value: seq<byte>): int {
    match ValueOf(ps, name)
    case Some(v) => TagAlign(|value|) - TagAlign(|v|)
    case None => 12 + TagAlign(|value|) + if Holds(strs, name) then 0 else |name| + 1
  }

  /** Whether the property of the node at `off` can be set depends only on the room behind `end`. */
  ghost predicate RoomDecides(w: seq<byte>, strs: seq<byte>, t: Node, off: int, name: seq<byte>, value: seq<byte>,
                              end: int, total: int, err: int)
    requires Denotes(w, strs, t)
  {
    OnNode(w, off) && err in {0, -ERR_NOSPACE} ==>
      (err == -ERR_NOSPACE <==> end + Growth(Get(t, PathAt(w, strs, t, off)).props, strs, name, value) > total)
  }

  lemma ResizeRoom(w: seq<byte>, strs: seq<byte>, t: Node, off: int, name: seq<byte>, value: seq<byte>, k: nat,
                   end: int, total: int, err: int)
    requires Denotes(w, strs, t) && OnNode(w, off) && PropFrom(Toks(w), NodeTok(w, off) + 1, strs, name) == Some(k)
    requires k < |Toks(w)| && Toks(w)[k].Prop?
    requires err == if end - TagAlign(|Toks(w)[k].value|) + TagAlign(|value|) > total then -ERR_NOSPACE else 0
    ensures RoomDecides(w, strs, t, off, name, value, end, total, err)
  {
    hide Walk, IsBlock, Toks, Meaning, Flatten, IndexOf, PropFrom, OnNode, NodeTok, PathAt, Get, TagAlign, Block,
         Named, ValueOf;
    ValueThere(w, strs, t, off, name, k);
  }

  lemma AddRoom(w: seq<byte>, strs: seq<byte>, t: Node, off: int, name: seq<byte>, value: seq<byte>,
                end: int, total: int, err: int)
    requires Denotes(w, strs, t) && OnNode(w, off) && PropFrom(Toks(w), NodeTok(w, off) + 1, strs, name) == None
    requires err == -ERR_NOSPACE <==>
             end + 12 + TagAlign(|value|) + (if Holds(strs, name) then 0 else |name| + 1) > total
    ensures RoomDecides(w, strs, t, off, name, value, end, total, err)
  {
    hide Walk, IsBlock, Toks, Meaning, Flatten, IndexOf, PropFrom, CStr, Get, NodeIndex, FindProp, PropPlace,
         TagAlign, Holds;
    PropLookup(Toks(w), strs, t, PathAt(w, strs, t, off), name);
  }

  lemma NoRoomAsked(w: seq<byte>, strs: seq<byte>, t: Node, off: int, name: seq<byte>, value: seq<byte>,
                    end: int, total: int, err: int)
    requires Denotes(w, strs, t) && err !in {0, -ERR_NOSPACE}
    ensures RoomDecides(w, strs, t, off, name, value, end, total, err)
  {
  }

  /** The outcome of giving an existing property of the node at `off` a new value. */
  predicate Resized(w: seq<byte>, strs: seq<byte>, t: Node, off: int, name: seq<byte>, value: seq<byte>,
                    w': seq<byte>, err: int)
    requires Denotes(w, strs, t) && Plausible(w, off)
  {
    if !IsNode(w, off) then err == -ERR_BADOFFSET && w' == w
    else match PropFrom(Toks(w), NodeTok(w, off) + 1, strs, name)
      case None => err == -ERR_NOTFOUND && w' == w
      case Some(k) =>
        if err != 0 then err == -ERR_NOSPACE && w' == w
        else
          && k < |Toks(w)| && Toks(w)[k].Prop?
          && HoldsProp(w, w', Off(Toks(w), k), Off(Toks(w), k + 1), Toks(w)[k].nameoff, value)
          && KeepsNode(w, w', off) && Denotes(w', strs, WithProp(t, PathAt(w, strs, t, off), name, value))
  }

  /** Gives an existing property a new value. */
  method ResizeProperty(fdt: Fdt, nodeoffset: int, name: seq<byte>, value: seq<byte>) returns (err: int)
    requires fdt.WellFormed() && Plausible(fdt.Struct(), nodeoffset) && |value| < U32 / 2 - 16
    modifies fdt`sizeDtStruct, fdt`offDtStrings, fdt.buf
    ensures fdt.Complete() && SameHeader(fdt) && fdt.Strings() == old(fdt.Strings())
    ensures fdt.Outside() == old(fdt.Outside()) && fdt.Reservations() == old(fdt.Reservations())
    ensures Resized(old(fdt.Struct()), old(fdt.Strings()), old(fdt.Root()), nodeoffset, name, value,
                    fdt.Struct(), err)
    ensures RoomDecides(old(fdt.Struct()), old(fdt.Strings()), old(fdt.Root()), nodeoffset, name, value,
                        old(fdt.offDtStrings + fdt.sizeDtStrings), fdt.totalsize, err)
    ensures err != 0 ==> fdt.offDtStrings == old(fdt.offDtStrings)
  {
    hide Block, Walk, IsBlock, Toks, Meaning, Flatten, IndexOf, Size, HoldsProp, PropFrom, CStr, WithProp, OnNode,
         NodeTok, IsNode, AfterProps, Parse, PathAt, Named, U32At, Be32, TagAlign, Denotes, Resized, Plausible, Lookup,
         Gap, Wrote, RoomDecides, Window, ReservationsIn;
    ghost var (w, strs, t) := (fdt.Struct(), fdt.Strings(), fdt.Root());
    var prop, oldlen := FindProperty(fdt, nodeoffset, name);
    if prop.None? {
      ResizeMissed(w, strs, t, nodeoffset, name, value, oldlen);
      MissedCode(w, strs, t, nodeoffset, name, oldlen);
      NoRoomAsked(w, strs, t, nodeoffset, name, value, fdt.offDtStrings + fdt.sizeDtStrings, fdt.totalsize, oldlen);
      return oldlen;
    }
    var o := prop.value;
    ghost var k := LookupHit(w, strs, t, nodeoffset, name, o, oldlen);
    err := ReplaceValue(fdt, o, oldlen, value);
    ResizeDone(w, fdt.Struct(), strs, t, nodeoffset, name, value, k, err);
    ResizeRoom(w, strs, t, nodeoffset, name, value, k, old(fdt.offDtStrings + fdt.sizeDtStrings), fdt.totalsize, err);
  }

  /** The lookup behind every property edit. */
  method FindProperty(fdt: Fdt, nodeoffset: int, name: seq<byte>) returns (prop: Option<int>, len: int)
    requires fdt.WellFormed() && Plausible(fdt.Struct(), nodeoffset)
    ensures prop.Some? ==> IsNode(fdt.Struct(), nodeoffset)
    ensures IsNode(fdt.Struct(), nodeoffset) ==>
              Lookup(Toks(fdt.Struct()), NodeTok(fdt.Struct(), nodeoffset) + 1, fdt.Strings(), name, prop, len)
    ensures !IsNode(fdt.Struct(), nodeoffset) ==> prop == None && len == -ERR_BADOFFSET
  {
    hide Walk, IsBlock, Toks, Meaning, IndexOf, OnNode, NodeTok, IsNode, Parse, Lookup;
    prop, len := GetProperty(fdt.Struct(), fdt.Strings(), nodeoffset, name);
  }

  lemma ResizeMissed(w: seq<byte>, strs: seq<byte>, t: Node, off: int, name: seq<byte>, value: seq<byte>, len: int)
    requires Denotes(w, strs, t) && Plausible(w, off)
    requires !IsNode(w, off) ==> len == -ERR_BADOFFSET
    requires IsNode(w, off) ==> Lookup(Toks(w), NodeTok(w, off) + 1, strs, name, None, len)
    ensures Resized(w, strs, t, off, name, value, w, len)
  {
    hide Walk, IsBlock, Toks, Meaning, Flatten, IndexOf, Size, PropFrom, CStr, OnNode, NodeTok, AfterProps, NextTag;
    if IsNode(w, off) {
      PropsStop(w, strs, t, off);
    }
  }

  lemma MissedCode(w: seq<byte>, strs: seq<byte>, t: Node, off: int, name: seq<byte>, len: int)
    requires Denotes(w, strs, t) && Plausible(w, off)
    requires !IsNode(w, off) ==> len == -ERR_BADOFFSET
    requires IsNode(w, off) ==> Lookup(Toks(w), NodeTok(w, off) + 1, strs, name, None, len)
    ensures len !in {0, -ERR_NOSPACE}
  {
    hide Walk, IsBlock, Toks, Meaning, Flatten, IndexOf, Size, PropFrom, CStr, OnNode, NodeTok, AfterProps, NextTag;
    if IsNode(w, off) {
      PropsStop(w, strs, t, off);
    }
  }

  lemma ResizeDone(w: seq<byte>, w': seq<byte>, strs: seq<byte>, t: Node, off: int, name: seq<byte>,
                   value: seq<byte>, k: nat, err: int)
    requires Denotes(w, strs, t) && Plausible(w, off) && IsNode(w, off) && |w'| < U32 / 2
    requires PropFrom(Toks(w), NodeTok(w, off) + 1, strs, name) == Some(k)
    requires err in {0, -ERR_NOSPACE} && (err != 0 ==> w' == w)
    requires err == 0 ==> HoldsProp(w, w', Off(Toks(w), k), Off(Toks(w), k + 1), Toks(w)[k].nameoff, value)
    ensures Resized(w, strs, t, off, name, value, w', err)
  {
    hide Walk, IsBlock, Toks, Meaning, Flatten, IndexOf, Size, PropFrom, CStr, WithProp, OnNode, NodeTok,
         AfterProps, PathAt, HoldsProp, NextTag;
    if err == 0 {
      ResizedDenotes(w, w', strs, t, off, name, value, k);
    }
  }

  /** What is known of the bytes of a property that was found. */
  lemma LookupHit(w: seq<byte>, strs: seq<byte>, t: Node, off: int, name: seq<byte>, o: int, len: int)
    returns (k: nat)
    requires Denotes(w, strs, t) && Plausible(w, off)
    requires IsNode(w, off) && Lookup(Toks(w), NodeTok(w, off) + 1, strs, name, Some(o), len)
    ensures OnNode(w, off)
    ensures PropFrom(Toks(w), NodeTok(w, off) + 1, strs, name) == Some(k) && NodeTok(w, off) < k < |Toks(w)|
    ensures Toks(w)[k].Prop? && 0 <= o == Off(Toks(w), k) && 0 <= len == |Toks(w)[k].value|
    ensures Off(Toks(w), k + 1) == o + 12 + TagAlign(len) <= |w|
    ensures U32At(w, o) == FDT_PROP && U32At(w, o + 8) == Toks(w)[k].nameoff
  {
    hide Walk, IsBlock, Toks, Meaning, Flatten, IndexOf, Size, PropFrom, CStr, OnNode, NodeTok, AfterProps, U32At,
         TagAlign;
    k := PropFrom(Toks(w), NodeTok(w, off) + 1, strs, name).value;
    PropHere(w, strs, name, k);
    TokenKind(w, k);
    TagHere(w, o);
  }

  lemma TagHere(w: seq<byte>, o: int)
    requires NextTag(w, o).0 == FDT_PROP
    ensures 0 <= o && o + 4 <= |w| && U32At(w, o) == FDT_PROP
  {
  }

  /** The outcome of adding a property behind the begin tag of the node at `off`. */
  predicate Added(w: seq<byte>, strs: seq<byte>, t: Node, off: int, name: seq<byte>, value: seq<byte>,
                  w': seq<byte>, strs': seq<byte>, nameoff: int, err: int)
    requires Denotes(w, strs, t) && OnNode(w, off)
  {
    && (strs' == strs || strs' == strs + (name + [0]))
    && if err != 0 then err == -ERR_NOSPACE && w' == w
       else
         var o := Off(Toks(w), NodeTok(w, off) + 1);
         && CStr(strs', nameoff) == Some(name)
         && HoldsProp(w, w', o, o, nameoff, value) && KeepsNode(w, w', off)
         && Denotes(w', strs', WithProp(t, PathAt(w, strs, t, off), name, value))
  }

  /** Adds a property the node does not have yet. */
  method AddProperty(fdt: Fdt, nodeoffset: int, name: seq<byte>, value: seq<byte>)
    returns (err: int, ghost nameoff: int)
    requires fdt.WellFormed() && OnNode(fdt.Struct(), nodeoffset) && 0 !in name && |value| < U32 / 2 - 16
    requires PropFrom(Toks(fdt.Struct()), NodeTok(fdt.Struct(), nodeoffset) + 1, fdt.Strings(), name) == None
    modifies fdt`sizeDtStruct, fdt`sizeDtStrings, fdt`offDtStrings, fdt.buf
    ensures fdt.Complete() && SameHeader(fdt)
    ensures fdt.Outside() == old(fdt.Outside()) && fdt.Reservations() == old(fdt.Reservations())
    ensures Added(old(fdt.Struct()), old(fdt.Strings()), old(fdt.Root()), nodeoffset, name, value,
                  fdt.Struct(), fdt.Strings(), nameoff, err)
    ensures err == -ERR_NOSPACE <==> old(fdt.offDtStrings + fdt.sizeDtStrings) + 12 + TagAlign(|value|)
                                     + (if Holds(old(fdt.Strings()), name) then 0 else |name| + 1) > fdt.totalsize
  {
    hide Block, Walk, IsBlock, Toks, Meaning, Flatten, IndexOf, Size, HoldsProp, PropFrom, CStr, WithProp, OnNode,
         NodeTok, IsNode, NextTag, Parse, PathAt, Named, U32At, Be32, TagAlign, Denotes, Added, Gap, Wrote, Holds,
         Window, ReservationsIn;
    ghost var (w, strs, t) := (fdt.Struct(), fdt.Strings(), fdt.Root());
    NodeNext(w, nodeoffset);
    var next := NextTag(fdt.Struct(), nodeoffset).1;
    var namestroff := FindAddString(fdt, name);
    nameoff := namestroff;
    if namestroff < 0 {
      AddFull(w, strs, fdt.Strings(), t, nodeoffset, name, value, nameoff);
      return namestroff, nameoff;
    }
    NameInBlock(fdt.Strings(), namestroff);
    err := InsertValue(fdt, next, namestroff, value);
    if err != 0 {
      AddFull(w, strs, fdt.Strings(), t, nodeoffset, name, value, nameoff);
      return;
    }
    AddDone(w, fdt.Struct(), strs, fdt.Strings(), t, nodeoffset, name, value, nameoff);
  }

  lemma NodeNext(w: seq<byte>, off: int)
    requires Block(w) && OnNode(w, off)
    ensures NextTag(w, off).1 == Off(Toks(w), NodeTok(w, off) + 1) <= |w|
  {
    hide Walk, IsBlock, Toks, IndexOf, Size, NextTag;
    NextTagAt(w, Toks(w), NodeTok(w, off));
  }

  lemma NameInBlock(strs: seq<byte>, off: int)
    requires CStr(strs, off).Some?
    ensures 0 <= off < |strs|
  {
  }

  lemma AddFull(w: seq<byte>, strs: seq<byte>, strs': seq<byte>, t: Node, off: int, name: seq<byte>,
                value: seq<byte>, nameoff: int)
    requires Denotes(w, strs, t) && OnNode(w, off) && (strs' == strs || strs' == strs + (name + [0]))
    ensures Added(w, strs, t, off, name, value, w, strs', nameoff, -ERR_NOSPACE)
  {
  }

  lemma AddDone(w: seq<byte>, w': seq<byte>, strs: seq<byte>, strs': seq<byte>, t: Node, off: int,
                name: seq<byte>, value: seq<byte>, nameoff: int)
    requires Denotes(w, strs, t) && OnNode(w, off) && |w'| < U32 / 2
    requires PropFrom(Toks(w), NodeTok(w, off) + 1, strs, name) == None
    requires (strs' == strs || strs' == strs + (name + [0])) && CStr(strs', nameoff) == Some(name)
    requires var o := Off(Toks(w), NodeTok(w, off) + 1); HoldsProp(w, w', o, o, nameoff, value)
    ensures Added(w, strs, t, off, name, value, w', strs', nameoff, 0)
  {
    hide Walk, IsBlock, Toks, Meaning, Flatten, IndexOf, Size, PropFrom, CStr, WithProp, OnNode, NodeTok,
         PathAt, HoldsProp, NextTag;
    var more := strs'[|strs|..];
    assert strs' == strs + more;
    AddedDenotes(w, w', strs, more, t, off, name, value, nameoff);
  }

  /** Sets a property: on success the tree is the same tree with that one property set, although
      the offsets of everything behind it have moved; on failure it is the same tree. */
  method SetProp(fdt: Fdt, nodeoffset: int, name: seq<byte>, value: seq<byte>)
    returns (err: int, ghost nameoff: int)
    requires fdt.WellFormed() && Plausible(fdt.Struct(), nodeoffset) && 0 !in name && |value| < U32 / 2 - 16
    modifies fdt`sizeDtStruct, fdt`sizeDtStrings, fdt`offDtStrings, fdt.buf
    ensures fdt.WellFormed() && SameHeader(fdt)
    ensures fdt.Outside() == old(fdt.Outside()) && fdt.Reservations() == old(fdt.Reservations())
    ensures err == -ERR_BADOFFSET <==> !IsNode(old(fdt.Struct()), nodeoffset)
    ensures err in {0, -ERR_BADOFFSET, -ERR_NOSPACE}
    ensures RoomDecides(old(fdt.Struct()), old(fdt.Strings()), old(fdt.Root()), nodeoffset, name, value,
                        old(fdt.offDtStrings + fdt.sizeDtStrings), fdt.totalsize, err)
    ensures err == 0 ==>
              fdt.Root() == WithProp(old(fdt.Root()),
                                     PathAt(old(fdt.Struct()), old(fdt.Strings()), old(fdt.Root()), nodeoffset),
                                     name, value)
    ensures err == 0 ==> OnNode(fdt.Struct(), nodeoffset)
                         && PathAt(fdt.Struct(), fdt.Strings(), fdt.Root(), nodeoffset)
                            == PathAt(old(fdt.Struct()), old(fdt.Strings()), old(fdt.Root()), nodeoffset)
    ensures err != 0 ==> fdt.Struct() == old(fdt.Struct()) && fdt.Root() == old(fdt.Root())
    ensures SetOutcome(old(fdt.Struct()), old(fdt.Strings()), old(fdt.Root()), nodeoffset, name, value,
                       fdt.Struct(), fdt.Strings(), nameoff, err)
  {
    hide Block, Walk, IsBlock, Toks, Meaning, Flatten, IndexOf, Size, PropFrom, WithProp, OnNode, NodeTok, IsNode,
         NextTag, Parse, PathAt, Named, Denotes, Added, NoSuchProp, Plausible, KeepsNode, RoomDecides, SetOutcome,
         Window, ReservationsIn;
    ghost var (w, strs, t) := (fdt.Struct(), fdt.Strings(), fdt.Root());
    err, nameoff := SetOrAdd(fdt, nodeoffset, name, value);
    OutcomeMeans(w, strs, t, nodeoffset, name, value, fdt.Struct(), fdt.Strings(), nameoff, err);
    if err == 0 {
      RootIs(fdt, WithProp(t, PathAt(w, strs, t, nodeoffset), name, value));
      SetStays(w, strs, t, fdt.Struct(), fdt.Strings(), nodeoffset, name, value);
    } else {
      RootIs(fdt, t);
    }
  }

  /** The outcome of setting a property, existing or new. */
  ghost predicate SetOutcome(w: seq<byte>, strs: seq<byte>, t: Node, off: int, name: seq<byte>, value: seq<byte>,
                             w': seq<byte>, strs': seq<byte>, nameoff: int, err: int)
    requires Denotes(w, strs, t) && Plausible(w, off)
  {
    if NoSuchProp(w, strs, off, name) then Added(w, strs, t, off, name, value, w', strs', nameoff, err)
    else strs' == strs && Resized(w, strs, t, off, name, value, w', err)
  }

  method SetOrAdd(fdt: Fdt, nodeoffset: int, name: seq<byte>, value: seq<byte>)
    returns (err: int, ghost nameoff: int)
    requires fdt.WellFormed() && Plausible(fdt.Struct(), nodeoffset) && 0 !in name && |value| < U32 / 2 - 16
    modifies fdt`sizeDtStruct, fdt`sizeDtStrings, fdt`offDtStrings, fdt.buf
    ensures fdt.Complete() && SameHeader(fdt)
    ensures fdt.Outside() == old(fdt.Outside()) && fdt.Reservations() == old(fdt.Reservations())
    ensures SetOutcome(old(fdt.Struct()), old(fdt.Strings()), old(fdt.Root()), nodeoffset, name, value,
                       fdt.Struct(), fdt.Strings(), nameoff, err)
    ensures RoomDecides(old(fdt.Struct()), old(fdt.Strings()), old(fdt.Root()), nodeoffset, name, value,
                        old(fdt.offDtStrings + fdt.sizeDtStrings), fdt.totalsize, err)
  {
    hide Block, Walk, IsBlock, Toks, Meaning, Flatten, IndexOf, Size, PropFrom, OnNode, NodeTok, IsNode, NextTag,
         Parse, Named, TagAlign, Denotes, Added, Resized, NoSuchProp, Plausible, KeepsNode, RoomDecides,
         WithProp, PathAt, Window, ReservationsIn;
    ghost var (w, strs, t) := (fdt.Struct(), fdt.Strings(), fdt.Root());
    nameoff := 0;
    err := ResizeProperty(fdt, nodeoffset, name, value);
    ResizedMeans(w, strs, t, nodeoffset, name, value, fdt.Struct(), err);
    if err == -ERR_NOTFOUND {
      RootIs(fdt, t);
      err, nameoff := AddProperty(fdt, nodeoffset, name, value);
      AddRoom(w, strs, t, nodeoffset, name, value, old(fdt.offDtStrings + fdt.sizeDtStrings), fdt.totalsize, err);
    }
  }

  lemma OutcomeMeans(w: seq<byte>, strs: seq<byte>, t: Node, off: int, name: seq<byte>, value: seq<byte>,
                     w': seq<byte>, strs': seq<byte>, nameoff: int, err: int)
    requires Denotes(w, strs, t) && Plausible(w, off)
    requires SetOutcome(w, strs, t, off, name, value, w', strs', nameoff, err)
    ensures err in {0, -ERR_BADOFFSET, -ERR_NOSPACE} && (err == -ERR_BADOFFSET <==> !IsNode(w, off))
    ensures err != 0 ==> w' == w && Denotes(w', strs', t)
    ensures err == 0 ==> strs <= strs' && OnNode(w, off) && KeepsNode(w, w', off)
                         && Denotes(w', strs', WithProp(t, PathAt(w, strs, t, off), name, value))
    ensures NoSuchProp(w, strs, off, name) ==>
              OnNode(w, off) && Added(w, strs, t, off, name, value, w', strs', nameoff, err)
  {
    hide Walk, IsBlock, Toks, Meaning, Flatten, IndexOf, PropFrom, WithProp, PathAt, NextTag, Added, Resized, KeepsNode,
         OnNode, NodeTok;
    if NoSuchProp(w, strs, off, name) {
      AddedMeans(w, strs, t, off, name, value, w', strs', nameoff, err);
    } else {
      ResizedMeans(w, strs, t, off, name, value, w', err);
    }
  }

  lemma SetStays(w: seq<byte>, strs: seq<byte>, t: Node, w': seq<byte>, strs': seq<byte>, off: int,
                 name: seq<byte>, value: seq<byte>)
    requires Denotes(w, strs, t) && strs <= strs' && OnNode(w, off) && KeepsNode(w, w', off)
    requires Denotes(w', strs', WithProp(t, PathAt(w, strs, t, off), name, value))
    ensures OnNode(w', off)
    ensures PathAt(w', strs', WithProp(t, PathAt(w, strs, t, off), name, value), off) == PathAt(w, strs, t, off)
  {
    hide Walk, IsBlock, Toks, Meaning, Flatten, IndexOf, PathAt, OnNode, NodeTok, Before, Put, Get, IsPath, SetIn,
         KeepsNode;
    var path := PathAt(w, strs, t, off);
    PutAt(t, path, Get(t, path).(props := SetIn(Get(t, path).props, name, value)));
    NodeStays(w, strs, t, w', strs', WithProp(t, path, name, value), off);
  }

  /** The value of the first property called `name`. */
  function ValueOf(ps: seq<Property>, name: seq<byte>): Option<seq<byte>> {
    match FindProp(ps, name)
    case Some(q) => Some(ps[q].value)
    case None => None
  }

  lemma SetInFinds(ps: seq<Property>, name: seq<byte>, value: seq<byte>)
    ensures ValueOf(SetIn(ps, name, value), name) == Some(value)
  {
    var (q, r) := (FindProp(ps, name), SetIn(ps, name, value));
    var at := if q.Some? then q.value else 0;
    assert r[at] == Property(name, value);
    assert forall p | 0 <= p < at :: r[p].name != name;
  }

  /** Reads the value of a property: the bytes of the first property of that name in the tree. */
  method GetProp(fdt: Fdt, nodeoffset: int, name: seq<byte>) returns (value: Option<seq<byte>>, len: int)
    requires fdt.WellFormed() && Plausible(fdt.Struct(), nodeoffset)
    ensures !IsNode(fdt.Struct(), nodeoffset) ==> value == None && len == -ERR_BADOFFSET
    ensures IsNode(fdt.Struct(), nodeoffset) ==>
              value == ValueOf(Get(fdt.Root(), PathAt(fdt.Struct(), fdt.Strings(), fdt.Root(), nodeoffset)).props, name)
    ensures value.Some? ==> len == |value.value|
    ensures IsNode(fdt.Struct(), nodeoffset) && value.None? ==> len == -ERR_NOTFOUND
  {
    hide Block, Walk, IsBlock, Toks, Meaning, Flatten, IndexOf, Size, PropFrom, CStr, OnNode, NodeTok, IsNode, Parse,
         PathAt, Named, U32At, TagAlign, Denotes, Plausible, Lookup, ValueOf, Get, Resized;
    ghost var (w, strs, t) := (fdt.Struct(), fdt.Strings(), fdt.Root());
    var prop;
    prop, len := FindProperty(fdt, nodeoffset, name);
    if prop.None? {
      NothingThere(w, strs, t, nodeoffset, name, len);
      return None, len;
    }
    ghost var k := LookupHit(w, strs, t, nodeoffset, name, prop.value, len);
    ValueThere(w, strs, t, nodeoffset, name, k);
    value := Some(fdt.Struct()[prop.value + 12..prop.value + 12 + len]);
  }

  lemma NothingThere(w: seq<byte>, strs: seq<byte>, t: Node, off: int, name: seq<byte>, len: int)
    requires Denotes(w, strs, t) && Plausible(w, off)
    requires IsNode(w, off) ==> Lookup(Toks(w), NodeTok(w, off) + 1, strs, name, None, len)
    ensures IsNode(w, off) ==> ValueOf(Get(t, PathAt(w, strs, t, off)).props, name) == None && len == -ERR_NOTFOUND
  {
    hide Walk, IsBlock, Toks, Meaning, Flatten, IndexOf, Size, PropFrom, CStr, OnNode, NodeTok, Get, NodeIndex,
         FindProp, PropPlace, AfterProps, NextTag;
    if IsNode(w, off) {
      PropsStop(w, strs, t, off);
      PropLookup(Toks(w), strs, t, PathAt(w, strs, t, off), name);
    }
  }

  lemma ValueThere(w: seq<byte>, strs: seq<byte>, t: Node, off: int, name: seq<byte>, k: nat)
    requires Denotes(w, strs, t) && OnNode(w, off)
    requires PropFrom(Toks(w), NodeTok(w, off) + 1, strs, name) == Some(k)
    ensures var (o, v) := (Off(Toks(w), k), Toks(w)[k].value);
            && o + 12 + |v| <= |w| && w[o + 12..o + 12 + |v|] == v
            && ValueOf(Get(t, PathAt(w, strs, t, off)).props, name) == Some(v)
  {
    hide Walk, Toks, Meaning, Flatten, IndexOf, Size, PropFrom, CStr, OnNode, NodeTok, Get, NodeIndex, FindProp,
         Encodes, FlattenProps, Rest, U32At, TagAlign;
    PropLookup(Toks(w), strs, t, PathAt(w, strs, t, off), name);
    var (ts, o) := (Toks(w), Off(Toks(w), k));
    EncodesAt(w[..|w| - 4], ts, k);
    assert w[..|w| - 4][o..Off(ts, k + 1)] == w[o..Off(ts, k + 1)];
    SliceSlice(w, o, Off(ts, k + 1), 12, 12 + |ts[k].value|);
    SaysValue(ts[k], strs);
  }

  lemma SaysValue(u: Token, strs: seq<byte>)
    requires u.Prop?
    ensures EventsOf(u, strs) != [] ==> EventsOf(u, strs)[0].Attr? && EventsOf(u, strs)[0].prop.value == u.value
  {
  }

  /** A property that was set is read back with exactly the bytes it was set to. */
  method SetThenGet(fdt: Fdt, nodeoffset: int, name: seq<byte>, value: seq<byte>)
    returns (err: int, got: Option<seq<byte>>)
    requires fdt.WellFormed() && Plausible(fdt.Struct(), nodeoffset) && 0 !in name && |value| < U32 / 2 - 16
    modifies fdt`sizeDtStruct, fdt`sizeDtStrings, fdt`offDtStrings, fdt.buf
    ensures fdt.WellFormed() && (err == 0 ==> got == Some(value))
    ensures fdt.Outside() == old(fdt.Outside()) && fdt.Reservations() == old(fdt.Reservations())
    ensures err in {0, -ERR_BADOFFSET, -ERR_NOSPACE}
    ensures err == -ERR_BADOFFSET <==> !IsNode(old(fdt.Struct()), nodeoffset)
    ensures RoomDecides(old(fdt.Struct()), old(fdt.Strings()), old(fdt.Root()), nodeoffset, name, value,
                        old(fdt.offDtStrings + fdt.sizeDtStrings), fdt.totalsize, err)
  {
    hide Block, Walk, IsBlock, Toks, Meaning, Flatten, IndexOf, Size, PropFrom, CStr, OnNode, NodeTok, Parse,
         PathAt, Named, Denotes, ValueOf, Get, Put, SetIn, NextTag, IsPath, Added, RoomDecides, Window, ReservationsIn;
    ghost var t := fdt.Root();
    ghost var w, strs := fdt.Struct(), fdt.Strings();
    ghost var nameoff;
    err, nameoff := SetProp(fdt, nodeoffset, name, value);
    got := None;
    if err == 0 {
      OnNodeIsNode(fdt.Struct(), nodeoffset);
      ghost var path := PathAt(w, strs, t, nodeoffset);
      PutAt(t, path, Get(t, path).(props := SetIn(Get(t, path).props, name, value)));
      SetInFinds(Get(t, path).props, name, value);
      var len;
      got, len := GetProp(fdt, nodeoffset, name);
    }
  }

  lemma OnNodeIsNode(w: seq<byte>, off: int)
    requires Block(w) && OnNode(w, off)
    ensures IsNode(w, off) && Plausible(w, off)
  {
    hide Walk, IsBlock, Toks, IndexOf, Size, NextTag;
    TokenKind(w, NodeTok(w, off));
  }

  /** The node at `off` has no property of that name. */
  predicate NoSuchProp(w: seq<byte>, strs: seq<byte>, off: int, name: seq<byte>)
    requires Plausible(w, off)
  {
    IsNode(w, off) && PropFrom(Toks(w), NodeTok(w, off) + 1, strs, name) == None
  }

  lemma ResizedMeans(w: seq<byte>, strs: seq<byte>, t: Node, off: int, name: seq<byte>, value: seq<byte>,
                     w': seq<byte>, err: int)
    requires Denotes(w, strs, t) && Plausible(w, off) && Resized(w, strs, t, off, name, value, w', err)
    ensures err == -ERR_BADOFFSET <==> !IsNode(w, off)
    ensures err in {0, -ERR_BADOFFSET, -ERR_NOTFOUND, -ERR_NOSPACE}
    ensures err == -ERR_NOTFOUND <==> NoSuchProp(w, strs, off, name)
    ensures err == -ERR_NOTFOUND ==> OnNode(w, off) && PropFrom(Toks(w), NodeTok(w, off) + 1, strs, name) == None
    ensures err != 0 ==> w' == w && Denotes(w', strs, t)
    ensures err == 0 ==> OnNode(w, off) && KeepsNode(w, w', off)
                         && Denotes(w', strs, WithProp(t, PathAt(w, strs, t, off), name, value))
  {
    hide Walk, IsBlock, Toks, Meaning, Flatten, IndexOf, PropFrom, WithProp, PathAt, NextTag;
  }

  lemma AddedMeans(w: seq<byte>, strs: seq<byte>, t: Node, off: int, name: seq<byte>, value: seq<byte>,
                   w': seq<byte>, strs': seq<byte>, nameoff: int, err: int)
    requires Denotes(w, strs, t) && OnNode(w, off)
    requires Added(w, strs, t, off, name, value, w', strs', nameoff, err)
    ensures err in {0, -ERR_NOSPACE}
    ensures err != 0 ==> w' == w && Denotes(w', strs', t)
    ensures strs <= strs'
    ensures err == 0 ==> KeepsNode(w, w', off)
                         && Denotes(w', strs', WithProp(t, PathAt(w, strs, t, off), name, value))
  {
    hide Walk, IsBlock, Toks, Meaning, Flatten, IndexOf, PropFrom, WithProp, PathAt, NextTag, HoldsProp, CStr, Size,
         OnNode, NodeTok;
    var more := strs'[|strs|..];
    assert strs' == strs + more;
    DenotesExtended(w, strs, more, t);
  }

  // ---------------------------------------------------------------- cutting out

  /** Closing a gap over a run of tokens cuts exactly those tokens out. */
  lemma CutTokens(w: seq<byte>, w': seq<byte>, ts: seq<Token>, i: nat, j: nat)
    requires IsBlock(w, ts) && i <= j <= |ts| && Off(ts, i) <= Off(ts, j)
    requires Gap(w, w', Off(ts, i), Off(ts, j) - Off(ts, i), 0)
    ensures IsBlock(w', ts[..i] + [] + ts[j..]) && w' == w[..Off(ts, i)] + w[Off(ts, j)..]
  {
    hide IsBlock, Encodes, Size;
    EncodesNil();
    BlockReplace(w, ts, i, j, [], []);
    var o := Off(ts, i);
    assert w' == w'[..o] + w'[o..] && w[..o] + [] + w[Off(ts, j)..] == w[..o] + w[Off(ts, j)..];
  }

  /** The bytes without a property stand for the tree without it. */
  lemma DeletedDenotes(w: seq<byte>, w': seq<byte>, strs: seq<byte>, t: Node, off: int, name: seq<byte>, k: nat)
    requires Denotes(w, strs, t) && OnNode(w, off) && |w'| < U32 / 2
    requires PropFrom(Toks(w), NodeTok(w, off) + 1, strs, name) == Some(k)
    requires Off(Toks(w), k) <= Off(Toks(w), k + 1)
    requires Gap(w, w', Off(Toks(w), k), Off(Toks(w), k + 1) - Off(Toks(w), k), 0)
    ensures Denotes(w', strs, WithoutProp(t, PathAt(w, strs, t, off), name))
    ensures w' == w[..Off(Toks(w), k)] + w[Off(Toks(w), k + 1)..]
  {
    hide Walk, IsBlock, Toks, Meaning, Flatten, IndexOf, Size, PropFrom, CStr, NodeIndex, WithoutProp, Gap;
    var (ts, path) := (Toks(w), PathAt(w, strs, t, off));
    CutTokens(w, w', ts, k, k + 1);
    Delete(ts, strs, t, path, name, k, 0);
    NamedEdit(ts, k, [], k + 1, strs);
    DenotesTokens(w', ts[..k] + [] + ts[k + 1..], strs, WithoutProp(t, path, name));
  }

  /** The outcome of deleting a property: the reason it cannot be done, or the tree without it. */
  predicate Deleted(w: seq<byte>, strs: seq<byte>, t: Node, off: int, name: seq<byte>, w': seq<byte>, err: int)
    requires Denotes(w, strs, t) && Plausible(w, off)
  {
    if !IsNode(w, off) then err == -ERR_BADOFFSET && w' == w
    else match PropFrom(Toks(w), NodeTok(w, off) + 1, strs, name)
      case None => err == -ERR_NOTFOUND && w' == w
      case Some(k) => err == 0 && Denotes(w', strs, WithoutProp(t, PathAt(w, strs, t, off), name))
                      && Off(Toks(w), k) <= Off(Toks(w), k + 1) <= |w|
                      && w' == w[..Off(Toks(w), k)] + w[Off(Toks(w), k + 1)..]
  }

  /** Deletes a property. It fails exactly when there is no such node or no such property. */
  method DelProp(fdt: Fdt, nodeoffset: int, name: seq<byte>) returns (err: int)
    requires fdt.WellFormed() && Plausible(fdt.Struct(), nodeoffset)
    modifies fdt`sizeDtStruct, fdt`offDtStrings, fdt.buf
    ensures fdt.WellFormed() && SameHeader(fdt) && fdt.Strings() == old(fdt.Strings())
    ensures fdt.Outside() == old(fdt.Outside()) && fdt.Reservations() == old(fdt.Reservations())
    ensures Deleted(old(fdt.Struct()), old(fdt.Strings()), old(fdt.Root()), nodeoffset, name, fdt.Struct(), err)
    ensures err == 0 ==>
              IsNode(old(fdt.Struct()), nodeoffset)
              && fdt.Root() == WithoutProp(old(fdt.Root()),
                                           PathAt(old(fdt.Struct()), old(fdt.Strings()), old(fdt.Root()), nodeoffset),
                                           name)
    ensures err != 0 ==> fdt.Root() == old(fdt.Root())
  {
    hide Block, Walk, IsBlock, Toks, Meaning, Flatten, IndexOf, Size, PropFrom, CStr, OnNode, NodeTok, IsNode, Parse,
         PathAt, Named, U32At, TagAlign, Denotes, Plausible, Lookup, Deleted, WithoutProp, Gap, Window, ReservationsIn;
    ghost var (w, strs, t) := (fdt.Struct(), fdt.Strings(), fdt.Root());
    var prop, len := FindProperty(fdt, nodeoffset, name);
    if prop.None? {
      DeleteMissed(w, strs, t, nodeoffset, name, len);
      RootIs(fdt, t);
      return len;
    }
    ghost var k := LookupHit(w, strs, t, nodeoffset, name, prop.value, len);
    err := SpliceStruct(fdt, prop.value, 12 + TagAlign(len), 0);
    DeleteDone(w, fdt.Struct(), strs, t, nodeoffset, name, k);
    RootIs(fdt, WithoutProp(t, PathAt(w, strs, t, nodeoffset), name));
  }

  lemma DeleteMissed(w: seq<byte>, strs: seq<byte>, t: Node, off: int, name: seq<byte>, len: int)
    requires Denotes(w, strs, t) && Plausible(w, off)
    requires !IsNode(w, off) ==> len == -ERR_BADOFFSET
    requires IsNode(w, off) ==> Lookup(Toks(w), NodeTok(w, off) + 1, strs, name, None, len)
    ensures Deleted(w, strs, t, off, name, w, len) && len != 0
  {
    hide Walk, IsBlock, Toks, Meaning, Flatten, IndexOf, Size, PropFrom, CStr, OnNode, NodeTok, AfterProps, NextTag;
    if IsNode(w, off) {
      PropsStop(w, strs, t, off);
    }
  }

  lemma DeleteDone(w: seq<byte>, w': seq<byte>, strs: seq<byte>, t: Node, off: int, name: seq<byte>, k: nat)
    requires Denotes(w, strs, t) && Plausible(w, off) && IsNode(w, off) && |w'| < U32 / 2
    requires PropFrom(Toks(w), NodeTok(w, off) + 1, strs, name) == Some(k)
    requires Off(Toks(w), k) <= Off(Toks(w), k + 1) <= |w|
    requires Gap(w, w', Off(Toks(w), k), Off(Toks(w), k + 1) - Off(Toks(w), k), 0)
    ensures Deleted(w, strs, t, off, name, w', 0)
    ensures OnNode(w, off) && Denotes(w', strs, WithoutProp(t, PathAt(w, strs, t, off), name))
  {
    hide Walk, IsBlock, Toks, Meaning, Flatten, IndexOf, Size, PropFrom, CStr, OnNode, NodeTok, NextTag, Gap,
         WithoutProp, PathAt;
    DeletedDenotes(w, w', strs, t, off, name, k);
  }

  /** Where a property that was just added stands. */
  lemma AddedPlace(w: seq<byte>, strs: seq<byte>, t: Node, off: int, name: seq<byte>, value: seq<byte>,
                   w': seq<byte>, strs': seq<byte>, nameoff: int)
    requires Denotes(w, strs, t) && OnNode(w, off) && Added(w, strs, t, off, name, value, w', strs', nameoff, 0)
    requires Block(w') && OnNode(w', off)
    ensures var (i, o) := (NodeTok(w, off), Off(Toks(w), NodeTok(w, off) + 1));
            && NodeTok(w', off) == i && i + 1 < |Toks(w')|
            && PropFrom(Toks(w'), i + 1, strs', name) == Some(i + 1)
            && Off(Toks(w'), i + 1) == o && Off(Toks(w'), i + 2) == o + 12 + TagAlign(|value|)
  {
    hide Walk, IsBlock, Denotes, Meaning, Flatten, IndexOf, Size, PropFrom, CStr, HoldsProp, TagAlign, WithProp,
         PathAt;
    var (ts, i) := (Toks(w), NodeTok(w, off));
    var ts' := ts[..i + 1] + [Prop(nameoff, value)] + ts[i + 1..];
    BlockWithProp(w, w', ts, i + 1, i + 1, nameoff, value);
    WalkIffBlock(w', ts');
    assert ts'[..i + 1] == ts[..i + 1] && ts'[i + 1] == Prop(nameoff, value) && ts'[..i] == ts[..i];
    IndexOfOff(ts', i);
    OffNext(ts', i + 1);
    PropStep(ts', i + 1, strs', name);
  }

  /** Adding a property the node does not have and deleting it again restores the structure block
      byte for byte. */
  method AddThenDelete(fdt: Fdt, nodeoffset: int, name: seq<byte>, value: seq<byte>) returns (err: int, err2: int)
    requires fdt.WellFormed() && Plausible(fdt.Struct(), nodeoffset) && 0 !in name && |value| < U32 / 2 - 16
    requires NoSuchProp(fdt.Struct(), fdt.Strings(), nodeoffset, name)
    modifies fdt`sizeDtStruct, fdt`sizeDtStrings, fdt`offDtStrings, fdt.buf
    ensures fdt.WellFormed() && fdt.Struct() == old(fdt.Struct())
    ensures fdt.Outside() == old(fdt.Outside()) && fdt.Reservations() == old(fdt.Reservations())
    ensures (err == 0 ==> err2 == 0) && err in {0, -ERR_NOSPACE}
    ensures RoomDecides(old(fdt.Struct()), old(fdt.Strings()), old(fdt.Root()), nodeoffset, name, value,
                        old(fdt.offDtStrings + fdt.sizeDtStrings), fdt.totalsize, err)
  {
    hide Block, Walk, IsBlock, Toks, Meaning, Flatten, IndexOf, Size, PropFrom, CStr, OnNode, NodeTok, Parse, HoldsProp,
         PathAt, Named, Denotes, ValueOf, Get, Put, SetIn, NextTag, IsPath, Added, Deleted, WithProp, WithoutProp,
         IsNode, TagAlign, RoomDecides, Window, ReservationsIn;
    ghost var (w, strs, t) := (fdt.Struct(), fdt.Strings(), fdt.Root());
    ghost var nameoff;
    err, nameoff := SetProp(fdt, nodeoffset, name, value);
    err2 := 0;
    if err == 0 {
      ghost var (w', strs', t') := (fdt.Struct(), fdt.Strings(), fdt.Root());
      OnNodeIsNode(w', nodeoffset);
      err2 := DelProp(fdt, nodeoffset, name);
      Restored(w, strs, t, nodeoffset, name, value, w', strs', t', nameoff, fdt.Struct(), err2);
    }
  }

  lemma Restored(w: seq<byte>, strs: seq<byte>, t: Node, off: int, name: seq<byte>, value: seq<byte>,
                 w': seq<byte>, strs': seq<byte>, t': Node, nameoff: int, w'': seq<byte>, err: int)
    requires Denotes(w, strs, t) && Plausible(w, off) && NoSuchProp(w, strs, off, name)
    requires OnNode(w, off) && Added(w, strs, t, off, name, value, w', strs', nameoff, 0)
    requires Denotes(w', strs', t') && OnNode(w', off) && IsNode(w', off) && Plausible(w', off)
    requires Deleted(w', strs', t', off, name, w'', err)
    ensures w'' == w && err == 0
  {
    hide Walk, IsBlock, Toks, Meaning, Flatten, IndexOf, Size, PropFrom, CStr, OnNode, NodeTok, U32At, TagAlign,
         WithProp, WithoutProp, PathAt, NextTag;
    AddedPlace(w, strs, t, off, name, value, w', strs', nameoff);
    var o := Off(Toks(w), NodeTok(w, off) + 1);
    assert w'' == w[..o] + w[o..];
  }

  /** The bytes without a node stand for the tree without it; without the root they stand for none. */
  lemma PrunedDenotes(w: seq<byte>, w': seq<byte>, strs: seq<byte>, t: Node, off: int, e: nat)
    requires Denotes(w, strs, t) && OnNode(w, off) && |w'| < U32 / 2
    requires NodeEnd(Toks(w), NodeTok(w, off)) == Some(e) && off <= Off(Toks(w), e)
    requires Gap(w, w', off, Off(Toks(w), e) - off, 0)
    ensures PathAt(w, strs, t, off) != [] ==> Denotes(w', strs, Prune(t, PathAt(w, strs, t, off)))
    ensures PathAt(w, strs, t, off) == [] ==> Block(w') && Parse(Meaning(Toks(w'), strs)).None?
    ensures w' == w[..off] + w[Off(Toks(w), e)..]
  {
    hide Walk, IsBlock, Toks, Meaning, Flatten, IndexOf, Size, CStr, NodeIndex, Prune, Gap, CloseFrom, Parse;
    var (ts, path, i) := (Toks(w), PathAt(w, strs, t, off), NodeTok(w, off));
    CutTokens(w, w', ts, i, e);
    RemoveNode(ts, strs, t, path, 0);
    if path == [] {
      NoTree(w', ts[..i] + [] + ts[e..], strs);
    } else {
      NamedEdit(ts, i, [], e, strs);
      DenotesTokens(w', ts[..i] + [] + ts[e..], strs, Prune(t, path));
    }
  }

  /** In a tree every node has its end tag. */
  lemma NodeCloses(w: seq<byte>, strs: seq<byte>, t: Node, off: int)
    requires Denotes(w, strs, t) && OnNode(w, off)
    ensures NodeEnd(Toks(w), NodeTok(w, off)).Some?
    ensures off < Off(Toks(w), NodeEnd(Toks(w), NodeTok(w, off)).value) <= |w|
    ensures Advances(w, off)
  {
    hide Walk, Toks, Meaning, Flatten, IndexOf, Size, CStr, NodeIndex, CloseFrom, Encodes, Advances;
    var (ts, i) := (Toks(w), NodeTok(w, off));
    NodeSpan(ts, strs, t, PathAt(w, strs, t, off));
    var e := NodeEnd(ts, i).value;
    OffMonotone(ts, i + 1, e);
    OffNext(ts, i);
    NextTagAtEnd(w, ts);
    OffMonotone(ts, e, |ts|);
    BlockAdvances(w, i);
  }

  /** The end of a node of a well-formed blob. */
  method FindNodeEnd(fdt: Fdt, nodeoffset: int) returns (end: int)
    requires fdt.WellFormed() && Plausible(fdt.Struct(), nodeoffset)
    ensures !IsNode(fdt.Struct(), nodeoffset) ==> end == if nodeoffset < 0 then nodeoffset else -ERR_BADOFFSET
    ensures IsNode(fdt.Struct(), nodeoffset) ==>
              var (ts, i) := (Toks(fdt.Struct()), NodeTok(fdt.Struct(), nodeoffset));
              NodeEnd(ts, i).Some? && end == Off(ts, NodeEnd(ts, i).value) && nodeoffset < end <= fdt.sizeDtStruct
  {
    hide Block, Walk, IsBlock, Toks, Meaning, Flatten, IndexOf, Size, OnNode, NodeTok, Parse, Named, Denotes, NextTag,
         CloseFrom, Advances;
    if IsNode(fdt.Struct(), nodeoffset) {
      NodeCloses(fdt.Struct(), fdt.Strings(), fdt.Root(), nodeoffset);
    }
    end := NodeEndOffset(fdt.Struct(), nodeoffset);
  }

  /** Deletes a node with everything in it. A tree is left exactly if it is not the root. */
  method DelNode(fdt: Fdt, nodeoffset: int) returns (err: int)
    requires fdt.WellFormed() && Plausible(fdt.Struct(), nodeoffset)
    modifies fdt`sizeDtStruct, fdt`offDtStrings, fdt.buf
    ensures fdt.Complete() && SameHeader(fdt) && fdt.Strings() == old(fdt.Strings())
    ensures fdt.Outside() == old(fdt.Outside()) && fdt.Reservations() == old(fdt.Reservations())
    ensures err == 0 <==> IsNode(old(fdt.Struct()), nodeoffset)
    ensures err != 0 ==> fdt.Struct() == old(fdt.Struct())
    ensures err != 0 ==> err == if nodeoffset < 0 then nodeoffset else -ERR_BADOFFSET
    ensures err == 0 ==>
              var (ts, i) := (Toks(old(fdt.Struct())), NodeTok(old(fdt.Struct()), nodeoffset));
              && NodeEnd(ts, i).Some? && nodeoffset <= Off(ts, NodeEnd(ts, i).value)
              && Gap(old(fdt.Struct()), fdt.Struct(), nodeoffset, Off(ts, NodeEnd(ts, i).value) - nodeoffset, 0)
    ensures err == 0 ==>
              var path := PathAt(old(fdt.Struct()), old(fdt.Strings()), old(fdt.Root()), nodeoffset);
              && (fdt.WellFormed() <==> path != [])
              && (path != [] ==> fdt.Root() == Prune(old(fdt.Root()), path))
  {
    hide Block, Walk, IsBlock, Toks, Meaning, Flatten, IndexOf, Size, CStr, OnNode, NodeTok, Parse,
         PathAt, Named, Denotes, NextTag, Prune, Gap, CloseFrom, Advances, Window, ReservationsIn;
    ghost var (w, strs, t) := (fdt.Struct(), fdt.Strings(), fdt.Root());
    var end := FindNodeEnd(fdt, nodeoffset);
    if end < 0 {
      return end;
    }
    err := SpliceStruct(fdt, nodeoffset, end - nodeoffset, 0);
    PrunedDenotes(w, fdt.Struct(), strs, t, nodeoffset, NodeEnd(Toks(w), NodeTok(w, nodeoffset)).value);
    ghost var path := PathAt(w, strs, t, nodeoffset);
    if path != [] {
      RootIs(fdt, Prune(t, path));
    }
  }
}
