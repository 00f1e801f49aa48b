/** Property names of an unfinished blob: the writer stores them relative to the end of a strings
    block that grows downwards, and finishing the blob makes them relative to its start. */
module FdtReloc {
  import opened Bytes
  import opened FdtFormat
  import opened FdtTree

  /** The token with its name offset moved up by `n`, in 32-bit arithmetic. */
  function RelocToken(t: Token, n: int): Token {
    match t
    case Prop(nameoff, value) => Prop((nameoff + n) % U32, value)
    case _ => t
  }

  function Reloc(ts: seq<Token>, n: int): (rs: seq<Token>)
    ensures |rs| == |ts| && forall i | 0 <= i < |ts| :: rs[i] == RelocToken(ts[i], n)
  {
    if ts == [] then [] else [RelocToken(ts[0], n)] + Reloc(ts[1..], n)
  }

  lemma RelocConcat(a: seq<Token>, b: seq<Token>, n: int)
    ensures Reloc(a + b, n) == Reloc(a, n) + Reloc(b, n)
  {
  }

  /** Every name lies inside a strings block of `n` bytes that ends where the offsets count from. */
  predicate Counted(ts: seq<Token>, n: int) {
    forall i | 0 <= i < |ts| && ts[i].Prop? :: U32 - n <= ts[i].nameoff < U32
  }

  /** What unfinished tokens say, given the strings written so far. */
  predicate Says(ts: seq<Token>, tab: seq<byte>, es: seq<Event>) {
    |tab| < U32 / 2 && Counted(ts, |tab|) && Named(Reloc(ts, |tab|), tab) && Meaning(Reloc(ts, |tab|), tab) == es
  }

  /** Strings put in front of the block change nothing that was said before. */
  lemma {:induction false} SaysPrepended(ts: seq<Token>, pre: seq<byte>, tab: seq<byte>, es: seq<Event>)
    requires Says(ts, tab, es) && |pre + tab| < U32 / 2
    ensures Says(ts, pre + tab, es)
    decreases |ts|
  {
    if ts != [] {
      hide CStr;
      var (hd, tl) := (ts[0], ts[1..]);
      assert Reloc(tl, |tab|) == Reloc(ts, |tab|)[1..] && Reloc(tl, |pre + tab|) == Reloc(ts, |pre + tab|)[1..];
      assert Named(Reloc(tl, |tab|), tab) by { NamedTail(Reloc(ts, |tab|), tab); }
      SaysPrepended(tl, pre, tab, Meaning(Reloc(tl, |tab|), tab));
      TokenPrepended(hd, pre, tab);
      NamedHead(RelocToken(hd, |pre + tab|), Reloc(tl, |pre + tab|), pre + tab);
    }
  }

  lemma NamedTail(ts: seq<Token>, strs: seq<byte>)
    requires ts != [] && Named(ts, strs)
    ensures Named(ts[1..], strs) && (ts[0].Prop? ==> CStr(strs, ts[0].nameoff).Some?)
  {
    hide CStr;
  }

  lemma NamedHead(t: Token, ts: seq<Token>, strs: seq<byte>)
    requires Named(ts, strs) && (t.Prop? ==> CStr(strs, t.nameoff).Some?)
    ensures Named([t] + ts, strs)
  {
    hide CStr;
  }

  lemma TokenPrepended(t: Token, pre: seq<byte>, tab: seq<byte>)
    requires |pre + tab| < U32 / 2 && (t.Prop? ==> U32 - |tab| <= t.nameoff < U32)
    requires t.Prop? ==> CStr(tab, RelocToken(t, |tab|).nameoff).Some?
    ensures t.Prop? ==> CStr(pre + tab, RelocToken(t, |pre + tab|).nameoff).Some?
    ensures EventsOf(RelocToken(t, |pre + tab|), pre + tab) == EventsOf(RelocToken(t, |tab|), tab)
  {
    hide CStr;
    if t.Prop? {
      var off := t.nameoff + |tab| - U32;
      assert (t.nameoff + |tab|) % U32 == off && (t.nameoff + |pre + tab|) % U32 == |pre| + off;
      CStrExtend(pre, tab, [], off);
      assert pre + tab + [] == pre + tab;
    }
  }

  /** One more token says one more event. */
  lemma SaysMore(ts: seq<Token>, tab: seq<byte>, es: seq<Event>, t: Token, e: Event)
    requires Says(ts, tab, es) && Says([t], tab, [e])
    ensures Says(ts + [t], tab, es + [e])
  {
    hide CStr, Meaning;
    RelocConcat(ts, [t], |tab|);
    MeaningConcat(Reloc(ts, |tab|), Reloc([t], |tab|), tab);
  }

  lemma SaysOpen(name: seq<byte>, tab: seq<byte>)
    requires |tab| < U32 / 2
    ensures Says([Begin(name)], tab, [Open(name)])
  {
    assert Reloc([Begin(name)], |tab|) == [Begin(name)] && [Begin(name)][1..] == [];
  }

  lemma SaysClose(tab: seq<byte>)
    requires |tab| < U32 / 2
    ensures Says([EndNode], tab, [Close])
  {
    assert Reloc([EndNode], |tab|) == [EndNode] && [EndNode][1..] == [];
  }

  lemma SaysNothing(tab: seq<byte>)
    requires |tab| < U32 / 2
    ensures Says([], tab, [])
  {
    assert Reloc([], |tab|) == [];
  }

  /** A property whose name stands at `p` in the strings says that name and its value. */
  lemma SaysProp(p: int, name: seq<byte>, value: seq<byte>, tab: seq<byte>)
    requires |tab| < U32 / 2 && CStr(tab, p) == Some(name)
    ensures Says([Prop(p - |tab| + U32, value)], tab, [Attr(Property(name, value))])
  {
    var t := Prop(p - |tab| + U32, value);
    assert 0 <= p < |tab|;
    assert (t.nameoff + |tab|) % U32 == p;
    assert Reloc([t], |tab|) == [Prop(p, value)] && [Prop(p, value)][1..] == [];
  }

  /** Relocation keeps every offset in the structure block. */
  lemma {:induction false} RelocSize(ts: seq<Token>, n: int)
    ensures Size(Reloc(ts, n)) == Size(ts)
  {
    if ts != [] {
      assert Reloc(ts, n)[1..] == Reloc(ts[1..], n);
      RelocSize(ts[1..], n);
    }
  }
}
