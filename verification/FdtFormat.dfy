/** The structure block of a flattened device tree: its tokens, their bytes, and the tag reader. */
module FdtFormat {
  import opened Bytes

  const FDT_BEGIN_NODE: int := 1
  const FDT_END_NODE: int := 2
  const FDT_PROP: int := 3
  const FDT_NOP: int := 4
  const FDT_END: int := 9

  const ERR_NOTFOUND: int := 1
  const ERR_EXISTS: int := 2
  const ERR_NOSPACE: int := 3
  const ERR_BADOFFSET: int := 4
  const ERR_BADPATH: int := 5
  const ERR_BADSTATE: int := 7
  const ERR_TRUNCATED: int := 8
  const ERR_BADMAGIC: int := 9
  const ERR_BADVERSION: int := 10
  const ERR_BADSTRUCTURE: int := 11

  /** The numbers of the tags and of the errors. */
  lemma Codes()
    ensures [FDT_BEGIN_NODE, FDT_END_NODE, FDT_PROP, FDT_NOP, FDT_END] == [1, 2, 3, 4, 9]
    ensures [ERR_NOTFOUND, ERR_EXISTS, ERR_NOSPACE, ERR_BADOFFSET, ERR_BADPATH] == [1, 2, 3, 4, 5]
    ensures [ERR_BADSTATE, ERR_TRUNCATED, ERR_BADMAGIC, ERR_BADVERSION, ERR_BADSTRUCTURE] == [7, 8, 9, 10, 11]
  {
  }

  /** One tag of the structure block with its payload. A property names itself by an offset
      into the strings block. The terminating FDT_END is not a token. */
  datatype Token =
    | Begin(name: seq<byte>)
    | Prop(nameoff: int, value: seq<byte>)
    | EndNode
    | Nop

  function TagOf(t: Token): int {
    match t
    case Begin(_) => FDT_BEGIN_NODE
    case Prop(_, _) => FDT_PROP
    case EndNode => FDT_END_NODE
    case Nop => FDT_NOP
  }

  /** Bytes a token takes, padding included. */
  function TokLen(t: Token): (n: nat)
    ensures n >= 4 && n % 4 == 0
  {
    match t
    case Begin(name) => AlignedSum(4, TagAlign(|name| + 1)); 4 + TagAlign(|name| + 1)
    case Prop(_, value) => AlignedSum(12, TagAlign(|value|)); 12 + TagAlign(|value|)
    case EndNode => 4
    case Nop => 4
  }

  lemma AlignedSum(x: nat, y: nat)
    requires x % 4 == 0 && y % 4 == 0
    ensures (x + y) % 4 == 0
  {
  }

  /** `s` is an encoding of `t`. Padding bytes are free: the editors leave stale bytes there. */
  predicate IsToken(s: seq<byte>, t: Token) {
    && |s| == TokLen(t)
    && U32At(s, 0) == TagOf(t)
    && match t
       case Begin(name) => 0 !in name && s[4..4 + |name| + 1] == name + [0]
       case Prop(nameoff, value) =>
         U32At(s, 4) == |value| && U32At(s, 8) == nameoff && s[12..12 + |value|] == value
       case EndNode => true
       case Nop => true
  }

  function Size(ts: seq<Token>): nat {
    if ts == [] then 0 else TokLen(ts[0]) + Size(ts[1..])
  }

  /** `s` is the concatenation of encodings of `ts`. */
  predicate Encodes(s: seq<byte>, ts: seq<Token>) {
    if ts == [] then s == []
    else
      var n := TokLen(ts[0]);
      n <= |s| && IsToken(s[..n], ts[0]) && Encodes(s[n..], ts[1..])
  }

  /** `s` is a whole structure block with tokens `ts`: their encodings, then FDT_END. */
  predicate IsBlock(s: seq<byte>, ts: seq<Token>) {
    |s| >= 4 && Encodes(s[..|s| - 4], ts) && U32At(s, |s| - 4) == FDT_END
  }

  /** The offset of token `i`. */
  function Off(ts: seq<Token>, i: nat): (r: nat)
    requires i <= |ts|
  {
    Size(ts[..i])
  }

  lemma {:induction false} SizeConcat(a: seq<Token>, b: seq<Token>)
    ensures Size(a + b) == Size(a) + Size(b)
  {
    if a == [] {
      assert a + b == b;
    } else {
      assert (a + b)[1..] == a[1..] + b;
      SizeConcat(a[1..], b);
    }
  }

  lemma {:induction false} SizeAligned(ts: seq<Token>)
    ensures Size(ts) % 4 == 0 && Size(ts) >= 4 * |ts|
  {
    hide TokLen;
    if ts != [] {
      SizeAligned(ts[1..]);
    }
  }

  lemma {:induction false} EncodesSize(s: seq<byte>, ts: seq<Token>)
    requires Encodes(s, ts)
    ensures |s| == Size(ts)
  {
    if ts != [] {
      EncodesSize(s[TokLen(ts[0])..], ts[1..]);
    }
  }

  lemma {:induction false} EncodesConcat(s: seq<byte>, a: seq<Token>, t: seq<byte>, b: seq<Token>)
    requires Encodes(s, a) && Encodes(t, b)
    ensures Encodes(s + t, a + b)
  {
    hide IsToken;
    if a == [] {
      assert s + t == t && a + b == b;
    } else {
      var n := TokLen(a[0]);
      assert (s + t)[..n] == s[..n] && (s + t)[n..] == s[n..] + t && (a + b)[1..] == a[1..] + b;
      EncodesConcat(s[n..], a[1..], t, b);
    }
  }

  lemma EncodesOne(s: seq<byte>, t: Token)
    requires IsToken(s, t)
    ensures Encodes(s, [t])
  {
    assert s[..TokLen(t)] == s;
  }

  lemma EncodesHead(s: seq<byte>, t: Token, b: seq<Token>)
    ensures Encodes(s, [t] + b) <==>
            TokLen(t) <= |s| && IsToken(s[..TokLen(t)], t) && Encodes(s[TokLen(t)..], b)
  {
    hide IsToken;
    assert ([t] + b)[1..] == b;
  }

  lemma {:induction false} EncodesSplit(s: seq<byte>, a: seq<Token>, b: seq<Token>)
    requires Encodes(s, a + b)
    ensures Size(a) <= |s| && Encodes(s[..Size(a)], a) && Encodes(s[Size(a)..], b)
  {
    hide IsToken, TokLen, Encodes;
    if a == [] {
      assert a + b == b && s[0..] == s;
      EncodesNil();
    } else {
      var (t, m, n) := (a[0], Size(a), TokLen(a[0]));
      assert a + b == [t] + (a[1..] + b) && a == [t] + a[1..];
      EncodesHead(s, t, a[1..] + b);
      EncodesSplit(s[n..], a[1..], b);
      Slices(s, n, m - n);
      assert s[..m][..n] == s[..n] && s[..m][n..] == s[n..m];
      EncodesHead(s[..m], t, a[1..]);
    }
  }

  lemma EncodesNil()
    ensures Encodes([], [])
  {
  }

  lemma EncodesCut(s: seq<byte>, a: seq<Token>, t: Token, b: seq<Token>)
    requires Encodes(s, a + ([t] + b))
    ensures Size(a) + TokLen(t) <= |s|
    ensures Encodes(s[..Size(a)], a) && Encodes(s[Size(a) + TokLen(t)..], b)
    ensures IsToken(s[Size(a)..Size(a) + TokLen(t)], t)
  {
    hide IsToken, TokLen, Encodes, Size;
    EncodesSplit(s, a, [t] + b);
    EncodesHead(s[Size(a)..], t, b);
    Slices(s, Size(a), TokLen(t));
  }

  lemma OffNext(ts: seq<Token>, i: nat)
    requires i < |ts|
    ensures Off(ts, i + 1) == Off(ts, i) + TokLen(ts[i])
  {
    assert ts[..i + 1] == ts[..i] + [ts[i]];
    SizeConcat(ts[..i], [ts[i]]);
  }

  /** Cuts an encoding at token `i`: what stands before, the token itself, what stands behind. */
  lemma EncodesAt(s: seq<byte>, ts: seq<Token>, i: nat)
    requires Encodes(s, ts) && i < |ts|
    ensures Off(ts, i + 1) == Off(ts, i) + TokLen(ts[i]) <= |s|
    ensures Encodes(s[..Off(ts, i)], ts[..i])
    ensures IsToken(s[Off(ts, i)..Off(ts, i + 1)], ts[i])
    ensures Encodes(s[Off(ts, i + 1)..], ts[i + 1..])
  {
    hide IsToken, TokLen, Encodes, Size;
    OffNext(ts, i);
    Around(ts, i);
    EncodesCut(s, ts[..i], ts[i], ts[i + 1..]);
  }

  /** Replacing a run of tokens replaces exactly their bytes. */
  lemma EncodesReplace(s: seq<byte>, ts: seq<Token>, i: nat, j: nat, mid: seq<byte>, us: seq<Token>)
    requires Encodes(s, ts) && i <= j <= |ts| && Encodes(mid, us)
    ensures Off(ts, i) <= Off(ts, j) <= |s|
    ensures Encodes(s[..Off(ts, i)] + mid + s[Off(ts, j)..], ts[..i] + us + ts[j..])
  {
    hide IsToken, TokLen, Encodes, Size;
    assert ts == ts[..i] + ts[i..] == ts[..j] + ts[j..];
    OffMonotone(ts, i, j);
    EncodesSplit(s, ts[..i], ts[i..]);
    EncodesSplit(s, ts[..j], ts[j..]);
    EncodesConcat(s[..Off(ts, i)], ts[..i], mid, us);
    EncodesConcat(s[..Off(ts, i)] + mid, ts[..i] + us, s[Off(ts, j)..], ts[j..]);
  }

  lemma OffMonotone(ts: seq<Token>, i: nat, j: nat)
    requires i <= j <= |ts|
    ensures Off(ts, i) <= Off(ts, j)
  {
    assert ts[..j] == ts[..i] + ts[i..j];
    SizeConcat(ts[..i], ts[i..j]);
  }

  lemma BlockReplace(s: seq<byte>, ts: seq<Token>, i: nat, j: nat, mid: seq<byte>, us: seq<Token>)
    requires IsBlock(s, ts) && i <= j <= |ts| && Encodes(mid, us)
    ensures Off(ts, i) <= Off(ts, j) <= |s| - 4
    ensures IsBlock(s[..Off(ts, i)] + mid + s[Off(ts, j)..], ts[..i] + us + ts[j..])
  {
    hide IsToken, TokLen, Encodes, Size, Off, U32At;
    EncodesReplace(s[..|s| - 4], ts, i, j, mid, us);
    TailMoved(s, Off(ts, i), mid, Off(ts, j));
  }

  lemma TailMoved(s: seq<byte>, a: nat, mid: seq<byte>, b: nat)
    requires a <= b <= |s| - 4
    ensures var (body, r) := (s[..|s| - 4], s[..a] + mid + s[b..]);
            r[..|r| - 4] == body[..a] + mid + body[b..] && U32At(r, |r| - 4) == U32At(s, |s| - 4)
  {
    var r := s[..a] + mid + s[b..];
    assert s == s[..|s| - 4] + s[|s| - 4..];
    assert r == s[..a] + mid + s[..|s| - 4][b..] + s[|s| - 4..];
  }

  // ---------------------------------------------------------------- reading tags

  /** Whether `len` bytes at `off` lie inside the readable window. */
  predicate InWindow(w: seq<byte>, off: int, len: int) {
    0 <= off && 0 <= len && off + len <= |w|
  }

  /** The tag at `start` and the offset of the tag behind it. The second component is a negated
      error code when the first is FDT_END and the block does not end there properly. The length
      of a property is added modulo 2^32. */
  function NextTag(w: seq<byte>, start: int): (r: (int, int)) {
    if !InWindow(w, start, 4) then (FDT_END, -ERR_TRUNCATED)
    else
      var tag := U32At(w, start);
      if tag == FDT_BEGIN_NODE then
        match NulEnd(w, start + 4)
        case None => (FDT_END, -ERR_BADSTRUCTURE)
        case Some(e) => (tag, TagAlign(e))
      else if tag == FDT_PROP then
        if !InWindow(w, start + 4, 4) then (FDT_END, -ERR_BADSTRUCTURE)
        else
          var total := (12 + U32At(w, start + 4)) % U32;
          if !InWindow(w, start, total) then (FDT_END, -ERR_BADSTRUCTURE)
          else (tag, TagAlign(start + total))
      else if tag == FDT_END || tag == FDT_END_NODE || tag == FDT_NOP then
        (tag, TagAlign(start + 4))
      else (FDT_END, -ERR_BADSTRUCTURE)
  }

  /** Reads a tag: a node's name is skipped byte by byte. */
  method ReadTag(w: seq<byte>, startoffset: int) returns (tag: int, nextoffset: int)
    ensures (tag, nextoffset) == NextTag(w, startoffset)
  {
    hide U32At, TagAlign;
    var offset := startoffset;
    nextoffset := -ERR_TRUNCATED;
    if !InWindow(w, offset, 4) {
      return FDT_END, nextoffset;
    }
    tag := U32At(w, offset);
    offset := offset + 4;
    nextoffset := -ERR_BADSTRUCTURE;
    if tag == FDT_BEGIN_NODE {
      while offset < |w| && w[offset] != 0
        invariant startoffset + 4 <= offset && NulEnd(w, offset) == NulEnd(w, startoffset + 4)
      {
        offset := offset + 1;
      }
      if offset >= |w| {
        return FDT_END, nextoffset;
      }
      offset := offset + 1;
    } else if tag == FDT_PROP {
      if !InWindow(w, offset, 4) {
        return FDT_END, nextoffset;
      }
      offset := startoffset + (12 + U32At(w, offset)) % U32;
    } else if tag != FDT_END && tag != FDT_END_NODE && tag != FDT_NOP {
      return FDT_END, nextoffset;
    }
    if !InWindow(w, startoffset, offset - startoffset) {
      return FDT_END, nextoffset;
    }
    nextoffset := TagAlign(offset);
  }

  /** A property whose length of 2^32 - 12 makes its size wrap around to nothing. */
  predicate Stuck(w: seq<byte>, o: int) {
    InWindow(w, o, 8) && U32At(w, o) == FDT_PROP && U32At(w, o + 4) == U32 - 12
  }

  /** The reader can fail to advance, and it does so exactly on such a property. */
  lemma NextTagAdvances(w: seq<byte>, start: int)
    requires start % 4 == 0
    ensures NextTag(w, start).1 >= 0 ==> (NextTag(w, start).1 > start <==> !Stuck(w, start))
    ensures Stuck(w, start) ==> NextTag(w, start) == (FDT_PROP, start)
  {
    hide U32At;
    if InWindow(w, start, 8) && U32At(w, start) == FDT_PROP {
      var len := U32At(w, start + 4);
      if len >= U32 - 12 {
        assert (12 + len) % U32 == 12 + len - U32;
      }
    }
  }

  /** The two errors of the reader: the window is too short for a tag, or there is no whole tag in it. */
  lemma TagErrors(w: seq<byte>, start: int)
    ensures NextTag(w, start) == (9, -8) <==> start < 0 || start + 4 > |w|
    ensures NextTag(w, start) == (9, -11) <==>
              0 <= start && start + 4 <= |w|
              && (var tag := U32At(w, start);
                  || (tag == 1 && forall j | start + 4 <= j < |w| :: w[j] != 0)
                  || (tag == 3 && (start + 8 > |w| || start + (12 + U32At(w, start + 4)) % U32 > |w|))
                  || tag !in {1, 2, 3, 4, 9})
    ensures NextTag(w, start).1 < 0 ==> NextTag(w, start) in {(9, -8), (9, -11)}
  {
    hide U32At;
  }

  /** Eight bytes at which the reader stands still. */
  lemma StandsStill()
    ensures NextTag([0, 0, 0, 3, 0xff, 0xff, 0xff, 0xf4], 0) == (FDT_PROP, 0)
  {
    assert Stuck([0, 0, 0, 3, 0xff, 0xff, 0xff, 0xf4], 0);
    NextTagAdvances([0, 0, 0, 3, 0xff, 0xff, 0xff, 0xf4], 0);
  }

  lemma NextTagOfBegin(w: seq<byte>, o: int, name: seq<byte>)
    requires 0 <= o && o % 4 == 0 && o + TokLen(Begin(name)) <= |w|
    requires IsToken(w[o..o + TokLen(Begin(name))], Begin(name))
    ensures NextTag(w, o) == (FDT_BEGIN_NODE, o + TokLen(Begin(name)))
  {
    hide U32At, TagAlign;
    U32Slice(w, o, o + TokLen(Begin(name)), 0);
    SliceSlice(w, o, o + TokLen(Begin(name)), 4, 4 + |name| + 1);
    CStrAt(w, o + 4, name);
    TagAlignShift(o + 4, |name| + 1);
  }

  lemma NextTagOfProp(w: seq<byte>, o: int, t: Token)
    requires t.Prop? && 0 <= o && o % 4 == 0 && o + TokLen(t) <= |w| < U32 / 2
    requires IsToken(w[o..o + TokLen(t)], t)
    ensures NextTag(w, o) == (FDT_PROP, o + TokLen(t))
  {
    hide U32At, TagAlign;
    U32Slice(w, o, o + TokLen(t), 0);
    U32Slice(w, o, o + TokLen(t), 4);
    TagAlignShift(o + 12, |t.value|);
  }

  /** The reader decodes one encoded token, wherever it stands. */
  lemma NextTagOfToken(w: seq<byte>, o: int, t: Token)
    requires 0 <= o && o % 4 == 0 && o + TokLen(t) <= |w| < U32 / 2
    requires IsToken(w[o..o + TokLen(t)], t)
    ensures NextTag(w, o) == (TagOf(t), o + TokLen(t))
  {
    match t
    case Begin(name) => NextTagOfBegin(w, o, name);
    case Prop(_, value) => NextTagOfProp(w, o, t);
    case EndNode => U32Slice(w, o, o + 4, 0);
    case Nop => U32Slice(w, o, o + 4, 0);
  }

  /** Where a block holds a token, the reader returns its tag and the offset of the next one. */
  lemma NextTagAt(w: seq<byte>, ts: seq<Token>, i: nat)
    requires IsBlock(w, ts) && i < |ts| && |w| < U32 / 2
    ensures NextTag(w, Off(ts, i)) == (TagOf(ts[i]), Off(ts, i + 1))
    ensures Off(ts, i) % 4 == 0 && Off(ts, i) + TokLen(ts[i]) == Off(ts, i + 1) <= |w| - 4
  {
    hide IsToken, TokLen, Encodes, Size, NextTag;
    var body := w[..|w| - 4];
    EncodesAt(body, ts, i);
    SizeAligned(ts[..i]);
    assert body[Off(ts, i)..Off(ts, i + 1)] == w[Off(ts, i)..Off(ts, i + 1)];
    NextTagOfToken(w, Off(ts, i), ts[i]);
  }

  /** Behind the last token the reader finds the end tag. */
  lemma NextTagAtEnd(w: seq<byte>, ts: seq<Token>)
    requires IsBlock(w, ts) && |w| < U32 / 2
    ensures NextTag(w, Off(ts, |ts|)) == (FDT_END, |w|) && Off(ts, |ts|) == |w| - 4
  {
    EncodesSize(w[..|w| - 4], ts);
    SizeAligned(ts);
    assert ts[..|ts|] == ts;
  }

  // ---------------------------------------------------------------- reading a whole block

  /** What is there behind a tag the reader has accepted. */
  lemma Accepted(w: seq<byte>, o: int)
    requires 0 <= o
    ensures NextTag(w, o).0 == FDT_BEGIN_NODE ==> NulEnd(w, o + 4).Some?
    ensures NextTag(w, o).0 == FDT_PROP ==>
              o + 8 <= |w| && (U32At(w, o + 4) < U32 - 12 ==> o + 12 + U32At(w, o + 4) <= |w|)
  {
    hide U32At, TagAlign, NulEnd;
  }

  /** The token whose tag the reader has just accepted at `o`; nothing if its length wrapped. */
  function TokenAt(w: seq<byte>, o: int): (r: Option<Token>)
    requires 0 <= o && NextTag(w, o).1 >= 0
  {
    var tag := NextTag(w, o).0;
    Accepted(w, o);
    if tag == FDT_BEGIN_NODE then Some(Begin(w[o + 4..NulEnd(w, o + 4).value - 1]))
    else if tag == FDT_PROP then
      var len := U32At(w, o + 4);
      if len >= U32 - 12 then None else Some(Prop(U32At(w, o + 8), w[o + 12..o + 12 + len]))
    else if tag == FDT_END_NODE then Some(EndNode)
    else if tag == FDT_NOP then Some(Nop)
    else None
  }

  /** Walks the window tag by tag from `o` and collects the tokens up to an FDT_END that stands
      exactly at the end of the window. */
  function Walk(w: seq<byte>, o: int): (r: Option<seq<Token>>)
    requires 0 <= o
    decreases |w| - o
  {
    var (tag, next) := NextTag(w, o);
    if tag == FDT_END then
      if next == |w| then Some([]) else None
    else if next <= o || next > |w| then None
    else match TokenAt(w, o)
      case None => None
      case Some(t) =>
        match Walk(w, next)
        case None => None
        case Some(ts) => Some([t] + ts)
  }

  lemma TokenAtBegin(w: seq<byte>, o: int, name: seq<byte>)
    requires 0 <= o && o % 4 == 0 && o + TokLen(Begin(name)) <= |w|
    requires IsToken(w[o..o + TokLen(Begin(name))], Begin(name))
    ensures NextTag(w, o).1 >= 0 && TokenAt(w, o) == Some(Begin(name))
  {
    NextTagOfBegin(w, o, name);
    SliceSlice(w, o, o + TokLen(Begin(name)), 4, 4 + |name| + 1);
    CStrAt(w, o + 4, name);
  }

  lemma TokenAtProp(w: seq<byte>, o: int, t: Token)
    requires t.Prop? && 0 <= o && o % 4 == 0 && o + TokLen(t) <= |w| < U32 / 2
    requires IsToken(w[o..o + TokLen(t)], t)
    ensures NextTag(w, o).1 >= 0 && TokenAt(w, o) == Some(t)
  {
    hide U32At, TagAlign, NextTag;
    NextTagOfProp(w, o, t);
    U32Slice(w, o, o + TokLen(t), 4);
    U32Slice(w, o, o + TokLen(t), 8);
    SliceSlice(w, o, o + TokLen(t), 12, 12 + |t.value|);
  }

  lemma TokenAtToken(w: seq<byte>, o: int, t: Token)
    requires 0 <= o && o % 4 == 0 && o + TokLen(t) <= |w| < U32 / 2
    requires IsToken(w[o..o + TokLen(t)], t)
    ensures NextTag(w, o).1 >= 0 && TokenAt(w, o) == Some(t)
  {
    NextTagOfToken(w, o, t);
    match t
    case Begin(name) => TokenAtBegin(w, o, name);
    case Prop(_, value) => TokenAtProp(w, o, t);
    case EndNode =>
    case Nop =>
  }

  lemma TokenAtBeginSound(w: seq<byte>, o: int)
    requires 0 <= o && o % 4 == 0
    requires NextTag(w, o).0 == FDT_BEGIN_NODE && NextTag(w, o).1 <= |w|
    ensures NextTag(w, o).1 == o + TokLen(TokenAt(w, o).value)
    ensures IsToken(w[o..NextTag(w, o).1], TokenAt(w, o).value)
  {
    hide U32At, TagAlign, NulEnd, IsToken, TokLen;
    BeginSound(w, o, NulEnd(w, o + 4).value);
  }

  lemma BeginSound(w: seq<byte>, o: int, e: int)
    requires 0 <= o && o % 4 == 0 && o + 4 <= |w| && U32At(w, o) == FDT_BEGIN_NODE
    requires NulEnd(w, o + 4) == Some(e) && TagAlign(e) <= |w|
    ensures TagAlign(e) == o + TokLen(Begin(w[o + 4..e - 1]))
    ensures IsToken(w[o..TagAlign(e)], Begin(w[o + 4..e - 1]))
  {
    hide U32At, TagAlign, NulEnd;
    var (next, name) := (TagAlign(e), w[o + 4..e - 1]);
    U32Slice(w, o, next, 0);
    TagAlignShift(o + 4, e - o - 4);
    SliceSlice(w, o, next, 4, e - o);
    assert w[o + 4..e] == name + [0];
  }

  lemma TokenAtPropSound(w: seq<byte>, o: int)
    requires 0 <= o && o % 4 == 0
    requires NextTag(w, o).0 == FDT_PROP && NextTag(w, o).1 <= |w| && TokenAt(w, o).Some?
    ensures NextTag(w, o).1 == o + TokLen(TokenAt(w, o).value)
    ensures IsToken(w[o..NextTag(w, o).1], TokenAt(w, o).value)
  {
    hide U32At, TagAlign;
    var next := NextTag(w, o).1;
    var len := U32At(w, o + 4);
    TagAlignShift(o + 12, len);
    U32Slice(w, o, next, 0);
    U32Slice(w, o, next, 4);
    U32Slice(w, o, next, 8);
    SliceSlice(w, o, next, 12, 12 + len);
  }

  /** The other direction: what the reader accepts at an aligned offset is an encoded token. */
  lemma TokenAtSound(w: seq<byte>, o: int)
    requires 0 <= o && o % 4 == 0
    requires NextTag(w, o).0 != FDT_END && NextTag(w, o).1 <= |w| && TokenAt(w, o).Some?
    ensures NextTag(w, o).1 == o + TokLen(TokenAt(w, o).value)
    ensures IsToken(w[o..NextTag(w, o).1], TokenAt(w, o).value)
  {
    var tag := NextTag(w, o).0;
    if tag == FDT_BEGIN_NODE {
      TokenAtBeginSound(w, o);
    } else if tag == FDT_PROP {
      TokenAtPropSound(w, o);
    } else {
      U32Slice(w, o, o + 4, 0);
    }
  }

  lemma {:induction false} WalkOfBlockFrom(w: seq<byte>, ts: seq<Token>, i: nat)
    requires IsBlock(w, ts) && i <= |ts| && |w| < U32 / 2
    ensures Walk(w, Off(ts, i)) == Some(ts[i..])
    decreases |ts| - i
  {
    hide IsToken, TokLen, Encodes, Size, NextTag, TokenAt;
    if i == |ts| {
      NextTagAtEnd(w, ts);
    } else {
      NextTagAt(w, ts, i);
      EncodesAt(w[..|w| - 4], ts, i);
      assert w[..|w| - 4][Off(ts, i)..Off(ts, i + 1)] == w[Off(ts, i)..Off(ts, i + 1)];
      TokenAtToken(w, Off(ts, i), ts[i]);
      WalkOfBlockFrom(w, ts, i + 1);
      assert ts[i..] == [ts[i]] + ts[i + 1..];
    }
  }

  lemma {:induction false} BlockOfWalkFrom(w: seq<byte>, o: int, ts: seq<Token>)
    requires 0 <= o <= |w| && o % 4 == 0 && |w| < U32 / 2 && Walk(w, o) == Some(ts)
    ensures IsBlock(w[o..], ts)
    decreases |w| - o
  {
    hide IsToken, TokLen, TokenAt;
    var (tag, next) := NextTag(w, o);
    if tag == FDT_END {
      U32Slice(w, o, |w|, 0);
    } else {
      TokenAtSound(w, o);
      BlockOfWalkFrom(w, next, ts[1..]);
      Slices(w, o, next - o);
      BlockCons(w[o..], next - o, ts[0], ts[1..]);
    }
  }

  lemma BlockCons(s: seq<byte>, n: nat, t: Token, ts: seq<Token>)
    requires n == TokLen(t) <= |s| && IsToken(s[..n], t) && IsBlock(s[n..], ts)
    ensures IsBlock(s, [t] + ts)
  {
    hide IsToken, TokLen;
    var body := s[..|s| - 4];
    assert ([t] + ts)[1..] == ts;
    assert body[..n] == s[..n] && body[n..] == s[n..][..|s| - n - 4];
    assert U32At(s[n..], |s| - n - 4) == U32At(s, |s| - 4);
  }

  lemma PutToken(s: seq<byte>, t: Token, w: seq<byte>, ts: seq<Token>) returns (v: seq<byte>, us: seq<Token>)
    requires IsToken(s, t) && |s| == TokLen(t) && IsBlock(w, ts)
    ensures v == s + w && us == [t] + ts && IsBlock(v, us)
  {
    hide IsToken, TokLen, IsBlock;
    v, us := s + w, [t] + ts;
    assert v[..|s|] == s && v[|s|..] == w;
    BlockCons(v, |s|, t, ts);
  }

  lemma EmptyBlock()
    ensures IsBlock([0, 0, 0, 9], [])
  {
  }

  lemma EndNodeToken(s: seq<byte>)
    requires s == [0, 0, 0, 2]
    ensures IsToken(s, EndNode) && |s| == TokLen(EndNode)
  {
  }

  lemma NameToken(s: seq<byte>, name: seq<byte>)
    requires |s| == 8 && U32At(s, 0) == FDT_BEGIN_NODE && |name| < 4 && 0 !in name && s[4..4 + |name| + 1] == name + [0]
    ensures IsToken(s, Begin(name)) && |s| == TokLen(Begin(name))
  {
  }

  /** Reading a block back gives exactly the tokens it was made of, and whatever can be read
      whole is such a block: printer and parser agree on every window. */
  lemma WalkIffBlock(w: seq<byte>, ts: seq<Token>)
    requires |w| < U32 / 2
    ensures IsBlock(w, ts) <==> Walk(w, 0) == Some(ts)
  {
    hide IsToken, TokLen, Encodes, NextTag, TokenAt, Walk;
    if IsBlock(w, ts) {
      WalkOfBlockFrom(w, ts, 0);
      assert ts[0..] == ts;
    }
    if Walk(w, 0) == Some(ts) {
      BlockOfWalkFrom(w, 0, ts);
      assert w[0..] == w;
    }
  }
}
