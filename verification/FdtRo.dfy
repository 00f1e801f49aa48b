/** Read-only access to a blob: the node walk, property lookup, the end of a node. */
module FdtRo {
  import opened Bytes
  import opened FdtFormat
  import opened FdtTree
  import opened FdtNodes
  import opened FdtProps
  import opened FdtEdits

  /** A structure block that reads whole. */
  predicate Block(w: seq<byte>) {
    |w| < U32 / 2 && Walk(w, 0).Some?
  }

  function Toks(w: seq<byte>): (ts: seq<Token>)
    requires Block(w)
    ensures IsBlock(w, ts)
  {
    WalkIffBlock(w, Walk(w, 0).value);
    Walk(w, 0).value
  }

  /** The index of the token at a byte offset. */
  function IndexOf(ts: seq<Token>, off: int): (r: Option<nat>)
    ensures r.Some? ==> r.value < |ts| && Off(ts, r.value) == off
  {
    if ts == [] then None
    else if off == 0 then assert ts[..0] == []; Some(0)
    else match IndexOf(ts[1..], off - TokLen(ts[0]))
      case None => None
      case Some(k) =>
        assert ts[..k + 1][1..] == ts[1..][..k];
        Some(k + 1)
  }

  lemma {:induction false} IndexOfOff(ts: seq<Token>, i: nat)
    requires i < |ts|
    ensures IndexOf(ts, Off(ts, i)) == Some(i)
  {
    hide TokLen;
    if i == 0 {
      assert ts[..0] == [];
    } else {
      assert ts[..i][1..] == ts[1..][..i - 1];
      IndexOfOff(ts[1..], i - 1);
    }
  }

  /** Walking on from `o` always gets further, until an end tag or an error. */
  predicate Advances(w: seq<byte>, o: int)
    decreases |w| - o
  {
    var (tag, next) := NextTag(w, o);
    tag == FDT_END || (next > o && Advances(w, next))
  }

  /** `n` tags behind `o` the walk reaches a property whose length is 2^32 - 12. */
  predicate StuckAfter(w: seq<byte>, o: int, n: nat)
    decreases n
  {
    if n == 0 then Stuck(w, o)
    else NextTag(w, o).0 != FDT_END && StuckAfter(w, NextTag(w, o).1, n - 1)
  }

  lemma NextAligned(w: seq<byte>, o: int)
    ensures NextTag(w, o).0 != FDT_END ==> NextTag(w, o).1 >= 0 && NextTag(w, o).1 % 4 == 0 && 0 <= o < |w|
  {
  }

  lemma {:induction false} NeverStuck(w: seq<byte>, o: int, n: nat)
    requires Advances(w, o) && o % 4 == 0
    ensures !StuckAfter(w, o, n)
    decreases n
  {
    hide NextTag, Stuck;
    NextTagAdvances(w, o);
    NextAligned(w, o);
    if n > 0 && NextTag(w, o).0 != FDT_END {
      NeverStuck(w, NextTag(w, o).1, n - 1);
    }
  }

  lemma {:induction false} GetsFurther(w: seq<byte>, o: int)
    requires o % 4 == 0 && forall n: nat :: !StuckAfter(w, o, n)
    ensures Advances(w, o)
    decreases |w| - o
  {
    hide NextTag, Stuck;
    NextTagAdvances(w, o);
    NextAligned(w, o);
    assert !StuckAfter(w, o, 0);
    var (tag, next) := NextTag(w, o);
    if tag != FDT_END {
      forall n: nat ensures !StuckAfter(w, next, n) {
        assert !StuckAfter(w, o, n + 1);
      }
      GetsFurther(w, next);
    }
  }

  ghost predicate GetsStuck(w: seq<byte>, o: int) {
    exists n: nat :: StuckAfter(w, o, n)
  }

  /** A walk always gets further, and so ends, exactly if it reaches no property whose length is
      2^32 - 12. */
  lemma AdvancesIff(w: seq<byte>, o: int)
    requires o % 4 == 0
    ensures Advances(w, o) <==> !GetsStuck(w, o)
  {
    hide NextTag, Stuck;
    if Advances(w, o) {
      forall n: nat ensures !StuckAfter(w, o, n) {
        NeverStuck(w, o, n);
      }
    }
    if !GetsStuck(w, o) {
      GetsFurther(w, o);
    }
  }

  lemma {:induction false} BlockAdvances(w: seq<byte>, i: nat)
    requires Block(w) && i <= |Toks(w)|
    ensures Advances(w, Off(Toks(w), i))
    decreases |Toks(w)| - i
  {
    hide NextTag, Walk, IsBlock, TokLen, Size;
    var ts := Toks(w);
    if i == |ts| {
      NextTagAtEnd(w, ts);
    } else {
      NextTagAt(w, ts, i);
      BlockAdvances(w, i + 1);
    }
  }

  /** What _fdt_check_node_offset accepts. */
  predicate IsNode(w: seq<byte>, o: int) {
    o >= 0 && o % 4 == 0 && NextTag(w, o).0 == FDT_BEGIN_NODE
  }

  /** What _fdt_check_prop_offset accepts. */
  predicate IsProp(w: seq<byte>, o: int) {
    o >= 0 && o % 4 == 0 && NextTag(w, o).0 == FDT_PROP
  }

  /** The reader at token `i`. */
  lemma TokenKind(w: seq<byte>, i: nat)
    requires Block(w) && i < |Toks(w)|
    ensures var o := Off(Toks(w), i);
            && NextTag(w, o) == (TagOf(Toks(w)[i]), Off(Toks(w), i + 1))
            && o % 4 == 0 && o < Off(Toks(w), i + 1)
            && (IsNode(w, o) <==> Toks(w)[i].Begin?) && (IsProp(w, o) <==> Toks(w)[i].Prop?)
  {
    hide NextTag, Walk, IsBlock, Size;
    NextTagAt(w, Toks(w), i);
  }

  lemma TokenEnd(w: seq<byte>)
    requires Block(w)
    ensures NextTag(w, Off(Toks(w), |Toks(w)|)) == (FDT_END, |w|)
  {
    hide NextTag, Walk, IsBlock, Size;
    NextTagAtEnd(w, Toks(w));
  }

  lemma TagInWindow(w: seq<byte>, o: int)
    requires NextTag(w, o).0 != FDT_END
    ensures 0 <= o <= |w| - 4 && NextTag(w, o).1 >= 0
  {
  }

  /** The offset is that of a begin tag of the block. */
  predicate OnNode(w: seq<byte>, o: int)
    requires Block(w)
  {
    IndexOf(Toks(w), o).Some? && Toks(w)[IndexOf(Toks(w), o).value].Begin?
  }

  /** The index of the begin tag at an offset. */
  function NodeTok(w: seq<byte>, o: int): (i: nat)
    requires Block(w) && OnNode(w, o)
    ensures i < |Toks(w)| && Off(Toks(w), i) == o && Toks(w)[i].Begin?
  {
    IndexOf(Toks(w), o).value
  }

  // ---------------------------------------------------------------- the node walk

  /** Where the walk to the next node stops: at a begin tag, behind the end tag that left the
      starting depth, or at the end of the block. */
  datatype Seek = Found(i: nat, depth: int) | Left(i: nat, depth: int) | NoMore(depth: int)

  function SeekNode(ts: seq<Token>, j: nat, depth: int): (r: Seek)
    requires j <= |ts|
    decreases |ts| - j
  {
    if j == |ts| then NoMore(depth)
    else match ts[j]
      case Begin(_) => Found(j, depth + 1)
      case EndNode => if depth - 1 < 0 then Left(j + 1, depth - 1) else SeekNode(ts, j + 1, depth - 1)
      case _ => SeekNode(ts, j + 1, depth)
  }

  /** The offset and depth that report a stop. */
  predicate Reports(ts: seq<Token>, s: Seek, r: int, d: int) {
    match s
    case Found(i, depth) => i < |ts| && r == Off(ts, i) && d == depth
    case Left(i, depth) => i <= |ts| && r == Off(ts, i) && d == depth
    case NoMore(depth) => r == -ERR_NOTFOUND && d == depth
  }

  /** Steps from a node to the next one in document order. */
  method NextNode(w: seq<byte>, offset: int, depth: int) returns (r: int, d: int)
    requires offset < 0 ==> Advances(w, 0)
    requires IsNode(w, offset) ==> Advances(w, offset)
    ensures offset >= 0 && !IsNode(w, offset) ==> r == -ERR_BADOFFSET && d == depth
    ensures r >= 0 ==> r > offset && Advances(w, r)
    ensures r >= 0 && d >= 0 ==> r <= |w|
    ensures Block(w) && offset < 0 ==> Reports(Toks(w), SeekNode(Toks(w), 0, depth), r, d)
    ensures Block(w) && OnNode(w, offset) ==>
              Reports(Toks(w), SeekNode(Toks(w), NodeTok(w, offset) + 1, depth), r, d)
  {
    hide Walk, IsBlock, Toks, SeekNode, NextTag, Size;
    d := depth;
    var next := 0;
    ghost var known := Block(w) && (offset < 0 || OnNode(w, offset));
    ghost var from: nat := if known && offset >= 0 then NodeTok(w, offset) + 1 else 0;
    if offset >= 0 {
      if known {
        TokenKind(w, NodeTok(w, offset));
      }
      if !IsNode(w, offset) {
        return -ERR_BADOFFSET, d;
      }
      next := NextTag(w, offset).1;
      TagInWindow(w, offset);
    } else if known {
      OffStart(Toks(w));
    }
    ghost var j: nat := from;
    while true
      invariant Advances(w, next) && next > offset && next >= 0
      invariant known ==> j <= |Toks(w)| && next == Off(Toks(w), j)
                          && SeekNode(Toks(w), from, depth) == SeekNode(Toks(w), j, d)
      decreases |w| - next
    {
      var (tag, nx) := NextTag(w, next);
      if known {
        SeekAt(w, j, d);
      }
      if tag == FDT_BEGIN_NODE {
        TagInWindow(w, next);
        d := d + 1;
        r := next;
        break;
      } else if tag == FDT_END_NODE {
        d := d - 1;
        if d < 0 {
          r := nx;
          break;
        }
      } else if tag == FDT_END {
        r := if nx >= 0 then -ERR_NOTFOUND else nx;
        break;
      }
      TagInWindow(w, next);
      next := nx;
      j := j + 1;
    }
  }

  lemma OffStart(ts: seq<Token>)
    ensures Off(ts, 0) == 0
  {
    assert ts[..0] == [];
  }

  /** One step of the node walk over a block. */
  lemma SeekAt(w: seq<byte>, j: nat, d: int)
    requires Block(w) && j <= |Toks(w)|
    ensures j < |Toks(w)| ==> NextTag(w, Off(Toks(w), j)) == (TagOf(Toks(w)[j]), Off(Toks(w), j + 1))
    ensures j < |Toks(w)| && Toks(w)[j].Begin? ==> SeekNode(Toks(w), j, d) == Found(j, d + 1)
    ensures j < |Toks(w)| && Toks(w)[j].EndNode? ==>
              SeekNode(Toks(w), j, d) == if d - 1 < 0 then Left(j + 1, d - 1) else SeekNode(Toks(w), j + 1, d - 1)
    ensures j < |Toks(w)| && (Toks(w)[j].Prop? || Toks(w)[j].Nop?) ==>
              SeekNode(Toks(w), j, d) == SeekNode(Toks(w), j + 1, d)
    ensures j == |Toks(w)| ==> NextTag(w, Off(Toks(w), j)) == (FDT_END, |w|) && SeekNode(Toks(w), j, d) == NoMore(d)
  {
    hide NextTag, Walk, IsBlock, Size, Toks;
    if j < |Toks(w)| {
      TokenKind(w, j);
    } else {
      TokenEnd(w);
    }
  }

  /** The node walk and the search for the end tag go the same way. */
  lemma {:induction false} SeekClose(ts: seq<Token>, j: nat, d: nat)
    requires j <= |ts|
    ensures match SeekNode(ts, j, d)
            case Found(k, dk) => j <= k < |ts| && ts[k].Begin? && dk > 0
                                 && CloseFrom(ts, j, d) == CloseFrom(ts, k + 1, dk)
            case Left(k, dk) => dk == -1 && CloseFrom(ts, j, d) == Some(k)
            case NoMore(_) => CloseFrom(ts, j, d) == None
    decreases |ts| - j
  {
    if j < |ts| && !ts[j].Begin? && !(ts[j].EndNode? && d == 0) {
      SeekClose(ts, j + 1, d + Level(ts[j]));
    }
  }

  /** How far the search for the end of the node at `offset` has come. */
  predicate EndSearch(w: seq<byte>, offset: int, r: int, depth: int)
    requires Block(w) && OnNode(w, offset)
  {
    var (ts, goal) := (Toks(w), NodeEnd(Toks(w), NodeTok(w, offset)));
    if r < 0 then r == -ERR_NOTFOUND && goal == None
    else if depth < 0 then goal.Some? && goal.value <= |ts| && r == Off(ts, goal.value)
    else OnNode(w, r) && CloseFrom(ts, NodeTok(w, r) + 1, depth) == goal
  }

  lemma EndSearchStep(w: seq<byte>, offset: int, was: int, depth: nat, r: int, d: int)
    requires Block(w) && OnNode(w, offset) && was >= 0 && EndSearch(w, offset, was, depth)
    requires Reports(Toks(w), SeekNode(Toks(w), NodeTok(w, was) + 1, depth), r, d)
    ensures EndSearch(w, offset, r, d)
  {
    hide Walk, IsBlock, Toks, SeekNode, CloseFrom, IndexOf, Size;
    SeekClose(Toks(w), NodeTok(w, was) + 1, depth);
    match SeekNode(Toks(w), NodeTok(w, was) + 1, depth)
    case Found(k, _) => IndexOfOff(Toks(w), k);
    case Left(_, _) =>
    case NoMore(_) =>
  }

  /** Finds the offset just past a node. */
  method NodeEndOffset(w: seq<byte>, offset: int) returns (r: int)
    requires IsNode(w, offset) ==> Advances(w, offset)
    ensures offset < 0 ==> r == offset
    ensures offset >= 0 && !IsNode(w, offset) ==> r == -ERR_BADOFFSET
    ensures Block(w) && OnNode(w, offset) ==>
              match NodeEnd(Toks(w), NodeTok(w, offset))
              case Some(e) => r == Off(Toks(w), e)
              case None => r == -ERR_NOTFOUND
  {
    hide Walk, IsBlock, Toks, NextTag, Size, SeekNode, CloseFrom, IndexOf, Advances;
    var depth := 0;
    r := offset;
    ghost var known := Block(w) && OnNode(w, offset);
    while r >= 0 && depth >= 0
      invariant r >= 0 ==> r >= offset && (IsNode(w, r) ==> Advances(w, r))
      invariant r == offset ==> depth == 0
      invariant offset < 0 ==> r == offset
      invariant !IsNode(w, offset) ==> r == offset || r == -ERR_BADOFFSET
      invariant known ==> EndSearch(w, offset, r, depth)
      decreases if r < 0 || depth < 0 then 0 else if r <= |w| then |w| - r + 1 else 1
    {
      ghost var (was, at) := (r, depth);
      r, depth := NextNode(w, r, depth);
      if known {
        EndSearchStep(w, offset, was, at, r, depth);
      }
    }
  }

  // ---------------------------------------------------------------- properties

  /** The first token at or behind `j` that is not padding. */
  function SkipNops(ts: seq<Token>, j: nat): (k: nat)
    requires j <= |ts|
    ensures j <= k <= |ts| && (k < |ts| ==> !ts[k].Nop?)
    decreases |ts| - j
  {
    if j < |ts| && ts[j].Nop? then SkipNops(ts, j + 1) else j
  }

  /** The result of stepping to the next property from token `j`. */
  function PropStop(ts: seq<Token>, j: nat): int
    requires j <= |ts|
  {
    var k := SkipNops(ts, j);
    if k == |ts| then -ERR_BADSTRUCTURE else if ts[k].Prop? then Off(ts, k) else -ERR_NOTFOUND
  }

  /** The next property of the same node at or behind `start`, which on a block is token `j`. */
  method NextProp(w: seq<byte>, start: int, ghost j: nat) returns (r: int)
    requires start >= 0 && Advances(w, start)
    ensures r >= 0 ==> r >= start && NextTag(w, r).0 == FDT_PROP && Advances(w, r)
    ensures Block(w) && j <= |Toks(w)| && start == Off(Toks(w), j) ==>
              r == PropStop(Toks(w), j)
  {
    hide Walk, IsBlock, Toks, NextTag, Size, IndexOf;
    var offset := start;
    ghost var known := Block(w) && j <= |Toks(w)| && start == Off(Toks(w), j);
    ghost var k: nat := j;
    while true
      invariant offset >= start && Advances(w, offset)
      invariant known ==> k <= |Toks(w)| && offset == Off(Toks(w), k)
                          && SkipNops(Toks(w), j) == SkipNops(Toks(w), k)
      decreases |w| - offset
    {
      var (tag, next) := NextTag(w, offset);
      if known {
        SeekAt(w, k, 0);
      }
      if tag == FDT_END {
        return if next >= 0 then -ERR_BADSTRUCTURE else next;
      } else if tag == FDT_PROP {
        return offset;
      } else if tag != FDT_NOP {
        return -ERR_NOTFOUND;
      }
      TagInWindow(w, offset);
      offset, k := next, k + 1;
    }
  }

  lemma {:induction false} SkipNopsProps(ts: seq<Token>, j: nat, strs: seq<byte>, name: seq<byte>)
    requires j <= |ts|
    ensures PropFrom(ts, j, strs, name) == PropFrom(ts, SkipNops(ts, j), strs, name)
    ensures AfterProps(ts, j) == AfterProps(ts, SkipNops(ts, j))
    decreases |ts| - j
  {
    if j < |ts| && ts[j].Nop? {
      SkipNopsProps(ts, j + 1, strs, name);
    }
  }

  /** What a property lookup reports: the offset of the property and the length of its value, or
      nothing and an error code. */
  predicate Lookup(ts: seq<Token>, j: nat, strs: seq<byte>, name: seq<byte>, prop: Option<int>, len: int)
    requires j <= |ts|
  {
    match PropFrom(ts, j, strs, name)
    case Some(k) => prop == Some(Off(ts, k) as int) && len == |ts[k].value|
    case None => prop == None && len == if AfterProps(ts, j) < |ts| then -ERR_NOTFOUND else -ERR_BADSTRUCTURE
  }

  /** Nothing sought was passed between tokens `j` and `k`. */
  predicate Passed(ts: seq<Token>, strs: seq<byte>, name: seq<byte>, j: nat, k: nat) {
    && j <= k <= |ts|
    && PropFrom(ts, j, strs, name) == PropFrom(ts, k, strs, name)
    && AfterProps(ts, j) == AfterProps(ts, k)
  }

  /** Looks up a property of the node at `nodeoffset` by name. */
  method GetProperty(w: seq<byte>, strs: seq<byte>, nodeoffset: int, name: seq<byte>)
    returns (prop: Option<int>, len: int)
    requires Block(w) && Named(Toks(w), strs)
    requires IsNode(w, nodeoffset) ==> OnNode(w, nodeoffset)
    ensures !IsNode(w, nodeoffset) ==> prop == None && len == -ERR_BADOFFSET
    ensures IsNode(w, nodeoffset) ==>
              Lookup(Toks(w), NodeTok(w, nodeoffset) + 1, strs, name, prop, len)
  {
    hide Walk, IsBlock, Toks, NextTag, Size, IndexOf, PropFrom, AfterProps, PropStop, Passed, Lookup,
         Advances, CStr, OnNode, NodeTok, U32At;
    if !IsNode(w, nodeoffset) {
      return None, -ERR_BADOFFSET;
    }
    ghost var i := NodeTok(w, nodeoffset);
    ghost var j: nat := i + 1;
    PassedNone(w, i, strs, name);
    var offset := NextProp(w, NextTag(w, nodeoffset).1, i + 1);
    while offset >= 0
      invariant j <= |Toks(w)| && Passed(Toks(w), strs, name, i + 1, j) && offset == PropStop(Toks(w), j)
      decreases |Toks(w)| - j
    {
      PropVisit(w, strs, name, i + 1, j);
      if CStr(strs, U32At(w, offset + 8)) == Some(name) {
        return Some(offset), U32At(w, offset + 4);
      }
      j := SkipNops(Toks(w), j) + 1;
      offset := NextProp(w, NextTag(w, offset).1, j);
    }
    PropsOver(Toks(w), strs, name, i + 1, j);
    return None, offset;
  }

  lemma PassedNone(w: seq<byte>, i: nat, strs: seq<byte>, name: seq<byte>)
    requires Block(w) && i < |Toks(w)|
    ensures Passed(Toks(w), strs, name, i + 1, i + 1)
    ensures NextTag(w, Off(Toks(w), i)).1 == Off(Toks(w), i + 1) && Advances(w, Off(Toks(w), i + 1))
  {
    hide Walk, IsBlock, Toks, NextTag, Size, PropFrom, AfterProps, Advances;
    TokenKind(w, i);
    BlockAdvances(w, i + 1);
  }

  /** A visited property is the one sought, or the search goes on behind it. */
  lemma PropVisit(w: seq<byte>, strs: seq<byte>, name: seq<byte>, j0: nat, j: nat)
    requires Block(w) && Named(Toks(w), strs)
    requires Passed(Toks(w), strs, name, j0, j) && PropStop(Toks(w), j) >= 0
    ensures var (ts, k, o) := (Toks(w), SkipNops(Toks(w), j), PropStop(Toks(w), j));
            && k < |ts| && o == Off(ts, k) && o + 12 <= |w|
            && NextTag(w, o).1 == Off(ts, k + 1) && Advances(w, Off(ts, k + 1))
            && (CStr(strs, U32At(w, o + 8)) == Some(name) ==>
                  Lookup(ts, j0, strs, name, Some(o), U32At(w, o + 4)))
            && (CStr(strs, U32At(w, o + 8)) != Some(name) ==> Passed(ts, strs, name, j0, k + 1))
  {
    hide Walk, IsBlock, Toks, NextTag, Size, IndexOf, PropFrom, AfterProps, SkipNops, Advances, CStr, U32At;
    var k := SkipNops(Toks(w), j);
    SkipNopsProps(Toks(w), j, strs, name);
    PropHere(w, strs, name, k);
    PassedNone(w, k, strs, name);
  }

  lemma PropsOver(ts: seq<Token>, strs: seq<byte>, name: seq<byte>, j0: nat, j: nat)
    requires Passed(ts, strs, name, j0, j) && PropStop(ts, j) < 0
    ensures Lookup(ts, j0, strs, name, None, PropStop(ts, j))
  {
    hide PropFrom, AfterProps, SkipNops, Size, CStr;
    SkipNopsProps(ts, j, strs, name);
    PropEnd(ts, SkipNops(ts, j), strs, name);
  }

  /** The header fields of the property at token `k`, and what the search does there. */
  lemma PropHere(w: seq<byte>, strs: seq<byte>, name: seq<byte>, k: nat)
    requires Block(w) && Named(Toks(w), strs) && k < |Toks(w)| && Toks(w)[k].Prop?
    ensures var (ts, o) := (Toks(w), Off(Toks(w), k));
            && o + TokLen(ts[k]) == Off(ts, k + 1) <= |w|
            && U32At(w, o + 4) == |ts[k].value| && U32At(w, o + 8) == ts[k].nameoff
            && (CStr(strs, ts[k].nameoff) == Some(name) ==> PropFrom(ts, k, strs, name) == Some(k))
            && (CStr(strs, ts[k].nameoff) != Some(name) ==>
                  PropFrom(ts, k, strs, name) == PropFrom(ts, k + 1, strs, name))
            && AfterProps(ts, k) == AfterProps(ts, k + 1)
  {
    hide Walk, Toks, NextTag, Size, IndexOf, CStr, U32At, Encodes, PropFrom, AfterProps;
    var (ts, o) := (Toks(w), Off(Toks(w), k));
    EncodesAt(w[..|w| - 4], ts, k);
    assert w[..|w| - 4][o..Off(ts, k + 1)] == w[o..Off(ts, k + 1)];
    U32Slice(w, o, Off(ts, k + 1), 4);
    U32Slice(w, o, Off(ts, k + 1), 8);
    PropStep(ts, k, strs, name);
    AfterPropsStep(ts, k);
  }

  lemma PropEnd(ts: seq<Token>, k: nat, strs: seq<byte>, name: seq<byte>)
    requires k <= |ts| && (k < |ts| ==> !ts[k].Prop? && !ts[k].Nop?)
    ensures PropFrom(ts, k, strs, name) == None && AfterProps(ts, k) == k
  {
  }

  // ---------------------------------------------------------------- strings

  /** The string with its terminator stands at `p`. */
  predicate StringAt(tab: seq<byte>, s: seq<byte>, p: int) {
    0 <= p && p + |s| + 1 <= |tab| && tab[p..p + |s| + 1] == s + [0]
  }

  ghost predicate Holds(tab: seq<byte>, s: seq<byte>) {
    exists p :: StringAt(tab, s, p)
  }

  /** Finds the first place where a string stands in a strings block, whole or as the tail of
      another string. */
  method FindString(tab: seq<byte>, s: seq<byte>) returns (r: Option<int>)
    requires 0 !in s
    ensures r.Some? ==> StringAt(tab, s, r.value) && CStr(tab, r.value) == Some(s)
    ensures r.Some? ==> forall p | 0 <= p < r.value :: !StringAt(tab, s, p)
    ensures r.Some? <==> Holds(tab, s)
  {
    var last := |tab| - (|s| + 1);
    var p := 0;
    while p <= last
      invariant 0 <= p && (p <= last || p == 0 || p == last + 1)
      invariant forall q | 0 <= q < p :: !StringAt(tab, s, q)
    {
      if tab[p..p + |s| + 1] == s + [0] {
        CStrAt(tab, p, s);
        assert StringAt(tab, s, p);
        return Some(p);
      }
      p := p + 1;
    }
    return None;
  }

  // ---------------------------------------------------------------- the tree of a blob

  /** Structure and strings blocks stand for tree `t`. */
  predicate Denotes(w: seq<byte>, strs: seq<byte>, t: Node) {
    Block(w) && Named(Toks(w), strs) && Meaning(Toks(w), strs) == Flatten(t)
  }

  /** The path of the node at a byte offset. */
  function PathAt(w: seq<byte>, strs: seq<byte>, t: Node, off: int): (path: seq<nat>)
    requires Denotes(w, strs, t) && OnNode(w, off)
    ensures IsPath(t, path) && NodeIndex(Toks(w), strs, t, path) == NodeTok(w, off)
  {
    NodePath(Toks(w), strs, t, NodeTok(w, off))
  }

  /** The byte offset of the node at a path. */
  function NodeOffset(w: seq<byte>, strs: seq<byte>, t: Node, path: seq<nat>): (off: int)
    requires Denotes(w, strs, t) && IsPath(t, path)
  {
    Off(Toks(w), NodeIndex(Toks(w), strs, t, path))
  }

  /** Offsets and paths name the same nodes. */
  lemma PathOffsets(w: seq<byte>, strs: seq<byte>, t: Node, path: seq<nat>)
    requires Denotes(w, strs, t) && IsPath(t, path)
    ensures var o := NodeOffset(w, strs, t, path);
            OnNode(w, o) && IsNode(w, o) && PathAt(w, strs, t, o) == path
  {
    hide Walk, IsBlock, Toks, Meaning, Flatten, Size, IndexOf, NextTag, RawIndex, PathTo;
    var i := NodeIndex(Toks(w), strs, t, path);
    NodePathUnique(Toks(w), strs, t, path);
    IndexOfOff(Toks(w), i);
    TokenKind(w, i);
  }

  /** The structure block of an empty root. */
  const SMALLEST: seq<byte> := [0, 0, 0, 1, 0, 0, 0, 0, 0, 0, 0, 2, 0, 0, 0, 9]

  lemma SmallestDenotes()
    ensures Denotes(SMALLEST, [], Node([], [], [])) && Toks(SMALLEST) == [Begin([]), EndNode]
  {
    hide Walk, IsBlock;
    var ts := [Begin([]), EndNode];
    SmallestBlock();
    assert ts[1..] == [EndNode] && [EndNode][1..] == [];
    assert Meaning([EndNode], []) == [Close] + Meaning([], []);
    assert Meaning(ts, []) == [Open([])] + Meaning([EndNode], []);
    DenotesTokens(SMALLEST, ts, [], Node([], [], []));
  }

  lemma SmallestBlock()
    ensures IsBlock(SMALLEST, [Begin([]), EndNode])
  {
    hide Encodes;
    var (a, b) := (SMALLEST[..8], SMALLEST[8..12]);
    assert a == [0, 0, 0, 1, 0, 0, 0, 0] && a[4..5] == [] + [0];
    EncodesOne(a, Begin([]));
    EncodesOne(b, EndNode);
    EncodesConcat(a, [Begin([])], b, [EndNode]);
    assert a + b == SMALLEST[..12] && [Begin([])] + [EndNode] == [Begin([]), EndNode];
  }

  /** Tokens that are not the linear form of a tree stand for none. */
  lemma NoTree(w: seq<byte>, ts: seq<Token>, strs: seq<byte>)
    requires |w| < U32 / 2 && IsBlock(w, ts) && (Meaning(ts, strs) == [] || !Meaning(ts, strs)[0].Open?)
    ensures Block(w) && Parse(Meaning(Toks(w), strs)).None?
  {
    hide Walk, IsBlock, Meaning, Flatten;
    WalkIffBlock(w, ts);
  }

  /** A block made of known tokens denotes what they say. */
  lemma DenotesTokens(w: seq<byte>, ts: seq<Token>, strs: seq<byte>, t: Node)
    requires |w| < U32 / 2 && IsBlock(w, ts) && Named(ts, strs) && Meaning(ts, strs) == Flatten(t)
    ensures Denotes(w, strs, t) && Toks(w) == ts
  {
    hide Walk, IsBlock, Meaning, Flatten;
    WalkIffBlock(w, ts);
  }
}
