/** The path string of a node, built in a buffer while walking the blob, and its way back. */
module FdtGetPath {
  import opened Bytes
  import opened FdtFormat
  import opened FdtTree
  import opened FdtNodes
  import opened FdtRo
  import opened FdtSplice
  import opened FdtPath
  import opened FdtAlias

  // ---------------------------------------------------------------- open nodes

  function Pass(t: Token, st: seq<seq<byte>>): seq<seq<byte>> {
    match t
    case Begin(name) => st + [name]
    case EndNode => if st == [] then [] else st[..|st| - 1]
    case _ => st
  }

  /** The names of the nodes that are open in front of token `j`, outermost first. */
  function OpenNames(ts: seq<Token>, j: nat): (r: seq<seq<byte>>)
    requires j <= |ts|
  {
    if j == 0 then [] else Pass(ts[j - 1], OpenNames(ts, j - 1))
  }

  lemma OpenStep(ts: seq<Token>, j: nat)
    requires j < |ts|
    ensures ts[j].Begin? ==> OpenNames(ts, j + 1) == OpenNames(ts, j) + [ts[j].name]
    ensures ts[j].EndNode? && OpenNames(ts, j) != [] ==>
              OpenNames(ts, j + 1) == OpenNames(ts, j)[..|OpenNames(ts, j)| - 1]
    ensures ts[j].Prop? || ts[j].Nop? ==> OpenNames(ts, j + 1) == OpenNames(ts, j)
  {
  }

  /** Between two stops of the node walk nodes are only closed. */
  lemma {:induction false} SeekOpen(ts: seq<Token>, j: nat, d: nat)
    requires j <= |ts| && |OpenNames(ts, j)| == d + 1
    ensures match SeekNode(ts, j, d)
            case Found(k, dk) => j <= k < |ts| && 0 < dk <= d + 1 && OpenNames(ts, k) == OpenNames(ts, j)[..dk]
                                 && forall b | j <= b < k :: !ts[b].Begin?
            case Left(k, _) => j < k <= |ts| && forall b | j <= b < k :: !ts[b].Begin?
            case NoMore(_) => forall b | j <= b < |ts| :: !ts[b].Begin?
    decreases |ts| - j
  {
    hide OpenNames;
    if j < |ts| && !ts[j].Begin? && !(ts[j].EndNode? && d == 0) {
      OpenStep(ts, j);
      SeekOpen(ts, j + 1, d + Level(ts[j]));
    } else if j == |ts| || ts[j].Begin? {
      assert OpenNames(ts, j) == OpenNames(ts, j)[..d + 1];
    }
  }

  /** In front of token `j` a node was closed whose name holds a slash and was, up to its end, short enough for the
      buffer. */
  predicate Slashed(ts: seq<Token>, j: nat, cap: int)
    requires j <= |ts|
  {
    j > 0 && (Slashed(ts, j - 1, cap) || (ts[j - 1].EndNode? && SlashLast(OpenNames(ts, j - 1), cap)))
  }

  predicate SlashLast(open: seq<seq<byte>>, cap: int) {
    open != [] && SLASH in open[|open| - 1] && |Join(open)| <= cap
  }

  /** Of the open nodes such a one stands behind the first `d`. */
  predicate Tearing(open: seq<seq<byte>>, d: int, cap: int) {
    |open| > d && open != [] && (SlashLast(open, cap) || Tearing(open[..|open| - 1], d, cap))
  }

  /** What is torn between two stops of the walk is what is closed there. */
  lemma {:induction false} SeekSlashed(ts: seq<Token>, j: nat, d: nat, cap: int)
    requires j <= |ts| && |OpenNames(ts, j)| == d + 1
    ensures match SeekNode(ts, j, d)
            case Found(k, dk) =>
              k <= |ts| && (Slashed(ts, k, cap) <==> Slashed(ts, j, cap) || Tearing(OpenNames(ts, j), dk, cap))
            case _ => true
    decreases |ts| - j
  {
    hide OpenNames, SlashLast;
    SeekOpen(ts, j, d);
    if j < |ts| && !ts[j].Begin? && !(ts[j].EndNode? && d == 0) {
      OpenStep(ts, j);
      SeekOpen(ts, j + 1, d + Level(ts[j]));
      SeekSlashed(ts, j + 1, d + Level(ts[j]), cap);
    }
  }

  function Enter(e: Event, st: seq<seq<byte>>): seq<seq<byte>> {
    match e
    case Open(name) => st + [name]
    case Attr(_) => st
    case Close => if st == [] then [] else st[..|st| - 1]
  }

  /** The same on events, starting inside the nodes `st`. */
  function OpenIn(es: seq<Event>, st: seq<seq<byte>>): seq<seq<byte>> {
    if es == [] then st else OpenIn(es[1..], Enter(es[0], st))
  }

  lemma {:induction false} OpenInConcat(a: seq<Event>, b: seq<Event>, st: seq<seq<byte>>)
    ensures OpenIn(a + b, st) == OpenIn(b, OpenIn(a, st))
  {
    if a == [] {
      assert a + b == b;
    } else {
      assert (a + b)[1..] == a[1..] + b;
      OpenInConcat(a[1..], b, Enter(a[0], st));
    }
  }

  lemma {:induction false} OpenNamesIn(ts: seq<Token>, strs: seq<byte>, j: nat)
    requires j <= |ts|
    ensures OpenNames(ts, j) == OpenIn(Meaning(ts[..j], strs), [])
  {
    hide Meaning, OpenIn, Pass;
    if j == 0 {
      assert ts[..0] == [];
      NothingSaid(strs);
      NothingOpened([]);
    } else {
      OpenNamesIn(ts, strs, j - 1);
      MeaningAt(ts, j - 1, strs);
      OpenInConcat(Meaning(ts[..j - 1], strs), EventsOf(ts[j - 1], strs), []);
      OpenInOne(ts[j - 1], strs, OpenNames(ts, j - 1));
    }
  }

  lemma OpenInOne(t: Token, strs: seq<byte>, st: seq<seq<byte>>)
    ensures OpenIn(EventsOf(t, strs), st) == Pass(t, st)
  {
    var es := EventsOf(t, strs);
    assert |es| == 1 ==> es[1..] == [];
  }

  lemma {:induction false} OpenInProps(ps: seq<Property>, st: seq<seq<byte>>)
    ensures OpenIn(FlattenProps(ps), st) == st
  {
    if ps != [] {
      OpenInProps(ps[1..], st);
    }
  }

  lemma {:induction false} OpenInNode(n: Node, st: seq<seq<byte>>)
    ensures OpenIn(Flatten(n), st) == st
    decreases n, 1
  {
    var (o, a, b) := ([Open(n.name)], FlattenProps(n.props), FlattenAll(n.children));
    OpenInConcat(o + a + b, [Close], st);
    OpenInConcat(o + a, b, st);
    OpenInConcat(o, a, st);
    OpenInProps(n.props, st + [n.name]);
    OpenInAll(n.children, st + [n.name]);
    assert o[1..] == [] && [Close][1..] == [];
    assert (st + [n.name])[..|st|] == st;
  }

  lemma {:induction false} OpenInAll(ns: seq<Node>, st: seq<seq<byte>>)
    ensures OpenIn(FlattenAll(ns), st) == st
    decreases ns, 0
  {
    if ns != [] {
      OpenInNode(ns[0], st);
      OpenInAll(ns[1..], st);
      OpenInConcat(Flatten(ns[0]), FlattenAll(ns[1..]), st);
    }
  }

  /** The names along a path, root first, last node included. */
  function Names(n: Node, path: seq<nat>): (r: seq<seq<byte>>)
    requires IsPath(n, path)
    ensures |r| == |path| + 1
  {
    if path == [] then [n.name] else [n.name] + Names(n.children[path[0]], path[1..])
  }

  lemma {:induction false} OpenBefore(n: Node, path: seq<nat>, st: seq<seq<byte>>)
    requires IsPath(n, path)
    ensures OpenIn(Before(n, path), st) + [Get(n, path).name] == st + Names(n, path)
    decreases |path|
  {
    hide Head, Before, Names, Get, OpenIn;
    PathUnfold(n, path);
    if path == [] {
      NothingOpened(st);
    } else {
      var (k, c) := (path[0], n.children[path[0]]);
      OpenInConcat(Head(n, k), Before(c, path[1..]), st);
      OpenInHead(n, k, st);
      OpenBefore(c, path[1..], st + [n.name]);
      Assoc(st, [n.name], Names(c, path[1..]));
    }
  }

  lemma PathUnfold(n: Node, path: seq<nat>)
    requires IsPath(n, path)
    ensures path == [] ==> Before(n, path) == [] && Get(n, path) == n && Names(n, path) == [n.name]
    ensures path != [] ==>
              var (k, c) := (path[0], n.children[path[0]]);
              && Before(n, path) == Head(n, k) + Before(c, path[1..]) && Get(n, path) == Get(c, path[1..])
              && Names(n, path) == [n.name] + Names(c, path[1..])
  {
  }

  lemma NothingOpened(st: seq<seq<byte>>)
    ensures OpenIn([], st) == st
  {
  }

  lemma OpenInHead(n: Node, k: nat, st: seq<seq<byte>>)
    requires k < |n.children|
    ensures OpenIn(Head(n, k), st) == st + [n.name]
  {
    hide FlattenProps, FlattenAll;
    var (o, a, b) := ([Open(n.name)], FlattenProps(n.props), FlattenAll(n.children[..k]));
    OpenInConcat(o + a, b, st);
    OpenInConcat(o, a, st);
    OpenInProps(n.props, st + [n.name]);
    OpenInAll(n.children[..k], st + [n.name]);
    assert o[1..] == [];
  }

  /** The nodes open at a node, itself included, are those along its path. */
  lemma OpenIsPath(ts: seq<Token>, strs: seq<byte>, t: Node, path: seq<nat>)
    requires Meaning(ts, strs) == Flatten(t) && IsPath(t, path)
    ensures OpenNames(ts, NodeIndex(ts, strs, t, path) + 1) == Names(t, path)
  {
    hide Meaning, Flatten, Before, Inner, NodeIndex, OpenNames, OpenIn, Names, IsPath, Get, After;
    var i := NodeIndex(ts, strs, t, path);
    NodeStart(ts, strs, t, path);
    OpenNamesIn(ts, strs, i);
    OpenStep(ts, i);
    OpenBefore(t, path, []);
    assert [] + Names(t, path) == Names(t, path);
  }

  // ---------------------------------------------------------------- the buffer

  /** The names, each followed by a slash. */
  function Join(names: seq<seq<byte>>): (r: seq<byte>)
    ensures names != [] ==> r != [] && r[|r| - 1] == SLASH
  {
    if names == [] then [] else Join(names[..|names| - 1]) + names[|names| - 1] + [SLASH]
  }

  lemma JoinPush(names: seq<seq<byte>>, name: seq<byte>)
    ensures Join(names + [name]) == Join(names) + name + [SLASH]
  {
    assert (names + [name])[..|names|] == names;
  }

  lemma {:induction false} JoinGrows(names: seq<seq<byte>>, k: nat)
    requires k <= |names|
    ensures |Join(names[..k])| <= |Join(names)|
    decreases |names|
  {
    if k < |names| {
      assert names[..|names| - 1][..k] == names[..k];
      JoinGrows(names[..|names| - 1], k);
    } else {
      assert names[..k] == names;
    }
  }

  /** `p` names of `s` are in the buffer: as many as fit, in order. */
  predicate Buffered(p: seq<seq<byte>>, s: seq<seq<byte>>, cap: int) {
    p <= s && |Join(p)| <= cap && (|p| < |s| ==> |Join(s[..|p| + 1])| > cap)
  }

  predicate SlashFree(names: seq<seq<byte>>) {
    forall i | 0 <= i < |names| :: SLASH !in names[i]
  }

  function Slashes(s: seq<byte>): (r: nat)
    ensures r == 0 <==> SLASH !in s
  {
    if s == [] then 0 else Slashes(s[..|s| - 1]) + if s[|s| - 1] == SLASH then 1 else 0
  }

  lemma {:induction false} SlashesConcat(a: seq<byte>, b: seq<byte>)
    ensures Slashes(a + b) == Slashes(a) + Slashes(b)
  {
    if b == [] {
      assert a + b == a;
    } else {
      assert (a + b)[..|a + b| - 1] == a + b[..|b| - 1];
      SlashesConcat(a, b[..|b| - 1]);
    }
  }

  lemma SlashesPush(a: seq<byte>, name: seq<byte>)
    ensures Slashes(a + name + [SLASH]) == Slashes(a) + Slashes(name) + 1
  {
    assert (a + name + [SLASH])[..|a + name|] == a + name;
    SlashesConcat(a, name);
  }

  lemma {:induction false} JoinSlashes(names: seq<seq<byte>>)
    ensures Slashes(Join(names)) >= |names|
    ensures SlashFree(names) ==> Slashes(Join(names)) == |names|
  {
    hide Slashes;
    if names != [] {
      JoinSlashes(names[..|names| - 1]);
      SlashesPush(Join(names[..|names| - 1]), names[|names| - 1]);
    } else {
      SlashesNone();
    }
  }

  lemma SlashesNone()
    ensures Slashes([]) == 0
  {
  }

  /** The buffer holds the names, or, once a part of a name has been left behind, more slashes than they have. */
  predicate Holding(s: seq<byte>, names: seq<seq<byte>>, torn: bool) {
    && 0 !in s && (s != [] ==> s[|s| - 1] == SLASH)
    && if torn then Slashes(s) > Slashes(Join(names)) else s == Join(names)
  }

  /** Steps back over what lies behind the last slash but one. The search for that slash stops at nothing else,
      so that it may leave the buffer. */
  method PopName(buf: array<byte>, p: int) returns (r: Option<int>)
    requires 0 <= p <= buf.Length
    ensures r.Some? ==> 0 < r.value < p && buf[r.value - 1] == SLASH && SLASH !in buf[r.value..p - 1]
    ensures r.None? ==> p == 0 || SLASH !in buf[..p - 1]
  {
    var q := p - 1;
    while q >= 1 && buf[q - 1] != SLASH
      invariant q < p && (p > 0 ==> q >= 0)
      invariant p > 0 ==> SLASH !in buf[q..p - 1]
      decreases q
    {
      q := q - 1;
    }
    return if q < 1 then None else Some(q);
  }

  /** Every step back takes one slash away. */
  lemma PopSlashes(s: seq<byte>, q: nat)
    requires 0 < q < |s| && s[|s| - 1] == SLASH && s[q - 1] == SLASH && SLASH !in s[q..|s| - 1]
    ensures Slashes(s[..q]) == Slashes(s) - 1 && Slashes(s) >= 2
  {
    hide Slashes;
    var (a, b) := (s[..q], s[q..|s| - 1]);
    ThreeParts(s, q);
    SlashesPush(a, b);
    SlashAtEnd(a);
  }

  lemma ThreeParts(s: seq<byte>, q: nat)
    requires q < |s|
    ensures s == s[..q] + s[q..|s| - 1] + [s[|s| - 1]]
  {
  }

  lemma SlashAtEnd(s: seq<byte>)
    requires s != [] && s[|s| - 1] == SLASH
    ensures Slashes(s) >= 1
  {
  }

  lemma PopFails(s: seq<byte>)
    requires s == [] || SLASH !in s[..|s| - 1]
    ensures Slashes(s) <= 1
  {
  }

  /** Stepping back over the last name tears it apart if it holds a slash. */
  lemma HoldingPop(s: seq<byte>, names: seq<seq<byte>>, torn: bool, q: nat)
    requires Holding(s, names, torn) && names != []
    requires 0 < q < |s| && s[q - 1] == SLASH && SLASH !in s[q..|s| - 1]
    ensures Holding(s[..q], names[..|names| - 1], torn || SLASH in names[|names| - 1])
  {
    hide Slashes;
    var (base, last) := (Join(names[..|names| - 1]), names[|names| - 1]);
    PopSlashes(s, q);
    SlashesPush(base, last);
    if !torn && SLASH !in last {
      LastName(s, base, last, q);
    }
  }

  lemma LastName(s: seq<byte>, base: seq<byte>, last: seq<byte>, q: nat)
    requires s == base + last + [SLASH] && SLASH !in last && (base != [] ==> base[|base| - 1] == SLASH)
    requires 0 < q < |s| && s[q - 1] == SLASH && SLASH !in s[q..|s| - 1]
    ensures s[..q] == base
  {
    forall i | |base| <= i < |s| - 1
      ensures s[i] != SLASH
    {
      assert s[i] == last[i - |base|];
    }
    forall i | q <= i < |s| - 1
      ensures s[i] != SLASH
    {
      assert s[i] == s[q..|s| - 1][i - q];
    }
    assert base != [] ==> s[|base| - 1] == SLASH;
  }

  lemma HoldingPush(s: seq<byte>, names: seq<seq<byte>>, torn: bool, name: seq<byte>)
    requires Holding(s, names, torn) && 0 !in name
    ensures Holding(s + name + [SLASH], names + [name], torn)
  {
    hide Slashes, Join;
    JoinPush(names, name);
    SlashesPush(s, name);
    SlashesPush(Join(names), name);
  }

  /** A name that stands behind the first `d` holds a slash. */
  predicate Closing(names: seq<seq<byte>>, d: int) {
    |names| > d && names != [] && (SLASH in names[|names| - 1] || Closing(names[..|names| - 1], d))
  }

  /** There is a slash to stop at if there are two names, and only then if the names hold none. */
  lemma PopStep(s: seq<byte>, names: seq<seq<byte>>, torn: bool, back: Option<int>)
    requires Holding(s, names, torn)
    requires back.Some? ==>
               0 < back.value < |s| && s[back.value - 1] == SLASH && SLASH !in s[back.value..|s| - 1]
    requires back.None? ==> s == [] || SLASH !in s[..|s| - 1]
    ensures |names| >= 2 ==> back.Some?
    ensures back.Some? && !torn && SlashFree(names) ==> |names| >= 2
    ensures back.Some? && names != [] ==>
              Holding(s[..back.value], names[..|names| - 1], torn || SLASH in names[|names| - 1])
  {
    hide Slashes, Join, Closing;
    JoinSlashes(names);
    match back
    case None => PopFails(s);
    case Some(q) =>
      PopSlashes(s, q);
      if names != [] {
        HoldingPop(s, names, torn, q);
      }
  }

  /** Steps back until `depth` names are left. */
  method PopTo(buf: array<byte>, p0: int, pdepth0: nat, depth: int, ghost names0: seq<seq<byte>>, ghost torn0: bool)
    returns (r: Option<int>, pdepth: int, ghost names: seq<seq<byte>>, ghost torn: bool)
    requires 0 <= p0 <= buf.Length && pdepth0 == |names0| && Holding(buf[..p0], names0, torn0)
    requires depth >= -1 && (depth == 0 ==> pdepth0 == 0)
    ensures r.Some? ==> 0 <= r.value <= p0 && pdepth == if pdepth0 <= depth then pdepth0 else depth
    ensures depth >= 0 ==>
              && r.Some? && names == (if pdepth0 <= depth then names0 else names0[..depth])
              && Holding(buf[..r.value], names, torn) && (torn <==> torn0 || Closing(names0, depth))
    ensures depth < 0 && SlashFree(names0) && !torn0 ==> r.None?
  {
    hide Join, Slashes, Holding;
    var p := p0;
    pdepth, names, torn := pdepth0, names0, torn0;
    while pdepth > depth
      invariant 0 <= p <= p0 && pdepth <= pdepth0 && (pdepth == pdepth0 || pdepth >= depth)
      invariant pdepth >= 0 ==>
                  && |names| == pdepth && names == names0[..pdepth] && Holding(buf[..p], names, torn)
                  && (torn || Closing(names, depth) <==> torn0 || Closing(names0, depth))
      invariant depth < 0 && SlashFree(names0) && !torn0 ==> pdepth >= 0 && !torn
      invariant depth == 0 ==> pdepth == 0
      decreases pdepth - depth
    {
      var back := PopName(buf, p);
      if pdepth >= 0 {
        assert back.Some? ==> buf[..p][back.value..p - 1] == buf[back.value..p - 1];
        assert p > 0 ==> buf[..p][..p - 1] == buf[..p - 1];
        PopStep(buf[..p], names, torn, back);
      }
      if back.None? {
        return None, pdepth, names, torn;
      }
      if pdepth > 0 {
        assert buf[..p][..back.value] == buf[..back.value];
        torn := torn || SLASH in names[pdepth - 1];
        names := names[..pdepth - 1];
      }
      p := back.value;
      pdepth := pdepth - 1;
    }
    return Some(p), pdepth, names, torn;
  }

  /** Appends a name and a slash. */
  method PushName(buf: array<byte>, p: int, s: seq<byte>) returns (q: int)
    requires 0 <= p && p + |s| + 1 <= buf.Length
    modifies buf
    ensures q == p + |s| + 1 && buf[..q] == old(buf[..p]) + s + [SLASH]
  {
    Store(buf, p, s + [SLASH]);
    q := p + |s| + 1;
    assert buf[..q] == old(buf[..p]) + (s + [SLASH]);
  }

  /** Drops the trailing slash, except that of the root alone, and ends the string. */
  method Terminate(buf: array<byte>, p: int) returns (q: int)
    requires 0 <= p <= buf.Length && buf.Length >= 2
    modifies buf
    ensures q == if p > 1 then p - 1 else p
    ensures 0 <= q < buf.Length && buf[..q + 1] == old(buf[..p])[..q] + [0]
  {
    q := if p > 1 then p - 1 else p;
    buf[q] := 0;
    assert buf[..q + 1] == old(buf[..p])[..q] + [0];
  }

  // ---------------------------------------------------------------- the walk

  /** The walk from the root stands at the begin tag `k`, inside `d` open nodes. */
  predicate Visit(ts: seq<Token>, k: nat, d: int) {
    && 0 < |ts| && k < |ts| && ts[k].Begin? && d == |OpenNames(ts, k)|
    && CloseFrom(ts, 1, 0) == CloseFrom(ts, k + 1, d)
  }

  /** The offset lies in front of the end of the root. */
  predicate InRoot(w: seq<byte>, off: int)
    requires Block(w)
  {
    0 < |Toks(w)| && NodeEnd(Toks(w), 0).Some? && off < Off(Toks(w), NodeEnd(Toks(w), 0).value)
  }

  lemma OffOrder(ts: seq<Token>, a: nat, b: nat)
    requires a <= |ts| && b <= |ts|
    ensures Off(ts, a) < Off(ts, b) ==> a < b
  {
    hide Size;
    if b <= a {
      OffMonotone(ts, b, a);
    }
  }

  /** Between two stops of the walk there is no node, so the walk cannot miss one. */
  lemma NoNodeBetween(w: seq<byte>, off: int, j: nat, k: nat)
    requires Block(w) && 0 < j <= k <= |Toks(w)| && (forall b | j <= b < k :: !Toks(w)[b].Begin?)
    requires Off(Toks(w), j - 1) < off < Off(Toks(w), k)
    ensures !OnNode(w, off)
  {
    hide Walk, IsBlock, Toks, IndexOf, Size;
    if OnNode(w, off) {
      var g := NodeTok(w, off);
      OffOrder(Toks(w), j - 1, g);
      OffOrder(Toks(w), g, k);
    }
  }

  /** There is no node right behind the root. */
  lemma BehindRoot(w: seq<byte>, strs: seq<byte>, t: Node)
    requires Denotes(w, strs, t) && OnNode(w, 0)
    ensures NodeEnd(Toks(w), 0).Some? && NodeEnd(Toks(w), 0).value <= |Toks(w)|
    ensures !IsNode(w, Off(Toks(w), NodeEnd(Toks(w), 0).value))
  {
    hide Walk, IsBlock, Toks, Meaning, Flatten, IndexOf, Size, CloseFrom, OnNode, NodeIndex, NextTag;
    RootSpan(w, strs, t);
    var (ts, e) := (Toks(w), NodeEnd(Toks(w), 0).value);
    if e < |ts| {
      TokenKind(w, e);
      MeaningAt(ts, e, strs);
    } else {
      TokenEnd(w);
    }
  }

  /** Where the walk is after one more step: at the next node, or behind the root, or past the offset. */
  lemma VisitNext(w: seq<byte>, strs: seq<byte>, t: Node, k: nat, d: int, off: int, r: int, d': int) returns (k': nat)
    requires Denotes(w, strs, t) && OnNode(w, 0) && Visit(Toks(w), k, d) && Off(Toks(w), k) < off
    requires Reports(Toks(w), SeekNode(Toks(w), k + 1, d), r, d')
    ensures r >= 0 && k' < |Toks(w)|
    ensures r <= off && d' >= 0 ==>
              && Visit(Toks(w), k', d') && r == Off(Toks(w), k') && 0 < d' && d >= 0
              && SeekNode(Toks(w), k + 1, d) == Found(k', d')
    ensures r <= off && d' < 0 ==> d' == -1 && !InRoot(w, off) && !IsNode(w, r)
    ensures r > off ==> InRoot(w, off) && !OnNode(w, off)
  {
    hide Walk, IsBlock, Toks, IndexOf, Size, OpenNames, SeekNode, CloseFrom, OnNode, Block, Meaning, Flatten, NextTag;
    var ts := Toks(w);
    OpenStep(ts, k);
    BehindRoot(w, strs, t);
    SeekOpen(ts, k + 1, d);
    SeekClose(ts, k + 1, d);
    k' := k;
    match SeekNode(ts, k + 1, d)
    case Found(j, _) =>
      k' := j;
      OffMonotone(ts, j, NodeEnd(ts, 0).value);
      if off < r {
        NoNodeBetween(w, off, k + 1, j);
      }
    case Left(j, _) =>
      if off < r {
        NoNodeBetween(w, off, k + 1, j);
      }
  }

  /** Every node lies in the root. */
  lemma NodeInRoot(w: seq<byte>, strs: seq<byte>, t: Node, off: int)
    requires Denotes(w, strs, t) && OnNode(w, 0) && OnNode(w, off)
    ensures InRoot(w, off)
  {
    hide Walk, IsBlock, Toks, Meaning, Flatten, IndexOf, Size, CloseFrom, OnNode, NodeTok, NodeIndex, Block;
    var (ts, i) := (Toks(w), NodeTok(w, off));
    RootSpan(w, strs, t);
    var e := NodeEnd(ts, 0).value;
    if e <= i {
      assert ts[e..][i - e..] == ts[i..];
      MeaningAt(ts[e..], i - e, strs);
    }
    OffMonotone(ts, i + 1, e);
    OffNext(ts, i);
  }

  /** Behind the root nothing is said. */
  lemma RootSpan(w: seq<byte>, strs: seq<byte>, t: Node)
    requires Denotes(w, strs, t) && OnNode(w, 0)
    ensures var ts := Toks(w);
            && 0 < |ts| && NodeEnd(ts, 0).Some? && NodeEnd(ts, 0).value <= |ts|
            && Meaning(ts[NodeEnd(ts, 0).value..], strs) == []
  {
    hide Walk, IsBlock, Toks, Meaning, Flatten, IndexOf, Size, CloseFrom, OnNode, NodeTok, NodeIndex, Block, Before;
    RootOffset(w, strs, t);
    NodeSpan(Toks(w), strs, t, []);
  }

  /** The buffer in front of a node whose enclosing nodes are `t`: it may still hold names of
      nodes that were closed since. */
  predicate Ready(p: seq<seq<byte>>, t: seq<seq<byte>>, cap: int) {
    if |p| <= |t| then Buffered(p, t, cap) else t <= p && |Join(p)| <= cap
  }

  lemma ReadyNext(p: seq<seq<byte>>, s: seq<seq<byte>>, d: nat, cap: int)
    requires Buffered(p, s, cap) && d <= |s|
    ensures Ready(p, s[..d], cap)
  {
    hide Join;
    if |p| < d {
      assert s[..d][..|p| + 1] == s[..|p| + 1];
    }
  }

  /** What the buffer holds of a name that is closed is what tears it. */
  lemma {:induction false} ClosingTears(p: seq<seq<byte>>, s: seq<seq<byte>>, d: int, cap: int)
    requires Buffered(p, s, cap)
    ensures Tearing(s, d, cap) <==> Closing(p, d)
    decreases |s|
  {
    hide Join;
    if |s| > d && s != [] {
      var s' := s[..|s| - 1];
      assert s[..|s|] == s;
      if |p| < |s| {
        JoinGrows(s, |p| + 1);
        assert |p| < |s'| ==> s'[..|p| + 1] == s[..|p| + 1];
        ClosingTears(p, s', d, cap);
      } else {
        assert p == s;
        JoinGrows(s, |s| - 1);
        ClosingTears(s', s', d, cap);
      }
    }
  }

  lemma BufferedPush(p: seq<seq<byte>>, t: seq<seq<byte>>, name: seq<byte>, cap: int)
    requires Buffered(p, t, cap)
    ensures p == t && |Join(p)| + |name| + 1 <= cap ==> Buffered(p + [name], t + [name], cap)
    ensures !(p == t && |Join(p)| + |name| + 1 <= cap) ==> Buffered(p, t + [name], cap)
  {
    hide Join;
    JoinPush(p, name);
    if p == t {
      assert (t + [name])[..|p| + 1] == t + [name];
    } else {
      assert (t + [name])[..|p| + 1] == t[..|p| + 1];
    }
  }

  /** No name holds a slash. */
  predicate Plain(ts: seq<Token>) {
    forall i | 0 <= i < |ts| && ts[i].Begin? :: SLASH !in ts[i].name
  }

  /** The path the buffer holds in the end: no trailing slash, except for the root alone. */
  function PathString(names: seq<seq<byte>>): (r: seq<byte>) {
    var j := Join(names);
    if |j| > 1 then j[..|j| - 1] else j
  }

  /** How a call ends: with an error code, or reading in front of the buffer. */
  datatype Outcome = Done(err: int) | OutOfBuffer

  /** The outcome of asking for the path of the node at `off`. A name with a slash that was in the buffer and closed
      leaves a part behind, and the path is not the node's. */
  ghost predicate PathOutcome(w: seq<byte>, strs: seq<byte>, t: Node, off: int, cap: int, s: seq<byte>, out: Outcome)
    requires Denotes(w, strs, t)
  {
    if cap < 2 then out == Done(-ERR_NOSPACE)
    else if !OnNode(w, 0) then out == Done(-ERR_BADOFFSET)
    else if !InRoot(w, off) then out == OutOfBuffer || (out == Done(-ERR_BADOFFSET) && !Plain(Toks(w)))
    else if !OnNode(w, off) then out == Done(-ERR_BADOFFSET)
    else
      var path := PathString(Names(t, PathAt(w, strs, t, off)));
      if Slashed(Toks(w), NodeTok(w, off), cap) then
        out == Done(-ERR_NOSPACE) || (out == Done(0) && !(path + [0] <= s))
      else if |path| + 1 > cap then out == Done(-ERR_NOSPACE)
      else out == Done(0) && path + [0] <= s
  }

  /** The names in the buffer in front of a node inside the nodes `open`. */
  predicate Follows(names: seq<seq<byte>>, open: seq<seq<byte>>, cap: int, torn: bool) {
    if torn then names <= open || open <= names else Ready(names, open, cap)
  }

  lemma FollowsTrim(all: seq<seq<byte>>, was: bool, names: seq<seq<byte>>, torn: bool, open: seq<seq<byte>>, cap: int)
    requires Follows(all, open, cap, was) && (was ==> torn)
    requires names == if |all| <= |open| then all else all[..|open|]
    ensures names <= open && (!torn ==> Buffered(names, open, cap))
    ensures |names| == |open| ==> names == open
  {
    hide Join;
    if |all| > |open| {
      JoinGrows(all, |open|);
    }
  }

  lemma FollowsPush(names: seq<seq<byte>>, torn: bool, open: seq<seq<byte>>, name: seq<byte>, cap: int, push: bool)
    requires names <= open && (push ==> names == open) && (!torn ==> Buffered(names, open, cap))
    requires !torn ==> (push <==> names == open && |Join(names)| + |name| + 1 <= cap)
    ensures var now := if push then names + [name] else names;
            now <= open + [name] && (!torn ==> Buffered(now, open + [name], cap))
  {
    hide Join, Buffered;
    if !torn {
      BufferedPush(names, open, name, cap);
    }
  }

  /** One more step of the walk. */
  lemma FollowsNext(ts: seq<Token>, k: nat, d: nat, names: seq<seq<byte>>, torn: bool, k': nat, d': nat, cap: int)
    requires Visit(ts, k, d) && SeekNode(ts, k + 1, d) == Found(k', d') && k' <= |ts|
    requires names <= OpenNames(ts, k + 1) && (!torn ==> Buffered(names, OpenNames(ts, k + 1), cap))
    requires torn <==> Slashed(ts, k, cap)
    ensures Follows(names, OpenNames(ts, k'), cap, torn) && (Slashed(ts, k', cap) <==> torn || Closing(names, d'))
  {
    hide Join, OpenNames, Buffered, Ready, SeekNode, Tearing, Closing;
    var open := OpenNames(ts, k + 1);
    OpenStep(ts, k);
    SeekOpen(ts, k + 1, d);
    SeekSlashed(ts, k + 1, d, cap);
    assert Slashed(ts, k + 1, cap) <==> Slashed(ts, k, cap);
    if !torn {
      ReadyNext(names, open, d', cap);
      ClosingTears(names, open, d', cap);
    }
  }

  /** Builds the path string of a node in `buf`. The walk goes on behind the root if the offset lies
      there, and then steps back over the root's name too. */
  method GetPath(w: seq<byte>, strs: seq<byte>, nodeoffset: int, buf: array<byte>, ghost t: Node) returns (out: Outcome)
    requires Denotes(w, strs, t)
    modifies buf
    ensures PathOutcome(w, strs, t, nodeoffset, buf.Length, buf[..], out)
    ensures out.OutOfBuffer? ==> buf.Length >= 2 && OnNode(w, 0) && !InRoot(w, nodeoffset)
    ensures out == Done(0) ==> CStr(buf[..], 0).Some?
  {
    hide Walk, IsBlock, Toks, Meaning, Flatten, IndexOf, Size, NextTag, Block, Join, OpenNames, Names, SeekNode, OnNode,
         NodeTok, PathAt, Buffered, Follows, CloseFrom, Visit, InRoot, Advances, Named, PathOutcome, CStr, Slashed,
         Holding, Closing, Plain, SlashFree;
    if buf.Length < 2 {
      PathFails(w, strs, t, nodeoffset, buf.Length, buf[..]);
      return Done(-ERR_NOSPACE);
    }
    NodeAtStart(w);
    // The walk asks for the name at offset 0 first, and gives up if there is no node.
    if !IsNode(w, 0) {
      PathFails(w, strs, t, nodeoffset, buf.Length, buf[..]);
      return Done(-ERR_BADOFFSET);
    }
    var pdepth, p, offset, depth := 0, 0, 0, 0;
    ghost var k: nat := 0;
    ghost var names: seq<seq<byte>> := [];
    ghost var torn := false;
    VisitRoot(w, strs, t, buf.Length);
    VisitDepth(Toks(w), 0, 0);
    while offset >= 0 && offset <= nodeoffset
      invariant k < |Toks(w)| && offset >= 0 && pdepth == |names|
      invariant offset <= nodeoffset && depth >= 0 ==>
                  && Visit(Toks(w), k, depth) && offset == Off(Toks(w), k) && (depth == 0 ==> pdepth == 0 && !torn)
                  && Follows(names, OpenNames(Toks(w), k), buf.Length, torn)
                  && (Slashed(Toks(w), k, buf.Length) <==> torn || Closing(names, depth))
      invariant offset <= nodeoffset && depth < 0 ==>
                  depth == -1 && !InRoot(w, nodeoffset) && !IsNode(w, offset)
      invariant 0 <= p <= buf.Length && Holding(buf[..p], names, torn)
      invariant Plain(Toks(w)) ==> SlashFree(names) && !torn
      invariant offset > nodeoffset ==> InRoot(w, nodeoffset) && !OnNode(w, nodeoffset)
      decreases if offset <= nodeoffset then nodeoffset - offset + 1 else 0
    {
      ghost var (all, was) := (names, torn);
      var back;
      if depth >= 0 {
        VisitName(w, k, depth);
      }
      back, pdepth, names, torn := PopTo(buf, p, pdepth, depth, all, was);
      if back.None? || (pdepth >= depth && !IsNode(w, offset)) {
        PathFails(w, strs, t, nodeoffset, buf.Length, buf[..]);
        return if back.None? then OutOfBuffer else Done(-ERR_BADOFFSET);
      }
      p := back.value;
      FollowsTrim(all, was, names, torn, OpenNames(Toks(w), k), buf.Length);
      PlainTrim(Toks(w), k, all, was, depth, names, torn);
      ghost var name := Toks(w)[k].name;
      ghost var (held, some) := (buf[..p], names);
      if pdepth >= depth {
        var s := CStr(w, offset + 4).value;
        if p + |s| + 1 <= buf.Length {
          p := PushName(buf, p, s);
          HoldingPush(held, names, torn, s);
          names := names + [s];
          pdepth := pdepth + 1;
        }
      }
      HoldingSize(held, some, torn);
      FollowsPush(some, torn, OpenNames(Toks(w), k), name, buf.Length, |names| > |some|);
      if offset == nodeoffset {
        if pdepth < depth + 1 {
          PathTooLong(w, strs, t, k, names, torn, buf.Length, buf[..]);
          return Done(-ERR_NOSPACE);
        }
        held := buf[..p];
        p := Terminate(buf, p);
        PathBuilt(w, strs, t, k, names, torn, held, buf.Length, buf[..], p);
        HasEnd(buf[..], held[..p], p);
        return Done(0);
      }
      ghost var at := depth;
      offset, depth := NextNode(w, offset, depth);
      ghost var k' := VisitNext(w, strs, t, k, at, nodeoffset, offset, depth);
      VisitDepth(Toks(w), k, at);
      if offset <= nodeoffset && depth >= 0 {
        FollowsNext(Toks(w), k, at, names, torn, k', depth, buf.Length);
        VisitDepth(Toks(w), k', depth);
        k := k';
      }
    }
    PathFails(w, strs, t, nodeoffset, buf.Length, buf[..]);
    return Done(-ERR_BADOFFSET);
  }

  lemma HasEnd(b: seq<byte>, s: seq<byte>, p: nat)
    requires p + 1 <= |b| && b[..p + 1] == s + [0] && 0 !in s
    ensures CStr(b, 0) == Some(s)
  {
    assert b[0..0 + |s| + 1] == b[..p + 1];
    CStrAt(b, 0, s);
  }

  lemma HoldingSize(s: seq<byte>, names: seq<seq<byte>>, torn: bool)
    requires Holding(s, names, torn)
    ensures 0 !in s && (!torn ==> |s| == |Join(names)|)
  {
  }

  lemma {:induction false} NoneClosing(names: seq<seq<byte>>, d: int)
    requires SlashFree(names)
    ensures !Closing(names, d)
  {
    if names != [] {
      NoneClosing(names[..|names| - 1], d);
    }
  }

  /** Where no name holds a slash nothing is torn. */
  lemma PlainTrim(ts: seq<Token>, k: nat, all: seq<seq<byte>>, was: bool, d: int, names: seq<seq<byte>>, torn: bool)
    requires k < |ts| && ts[k].Begin? && names <= all && (torn <==> was || Closing(all, d))
    requires Plain(ts) ==> SlashFree(all) && !was
    ensures Plain(ts) ==> SlashFree(names) && SlashFree(names + [ts[k].name]) && !torn
  {
    if Plain(ts) {
      NoneClosing(all, d);
    }
  }

  /** In the smallest blob the offset just past the root is such an offset. */
  lemma PastTheRoot()
    ensures Denotes(SMALLEST, [], Node([], [], [])) && Plain(Toks(SMALLEST)) && OnNode(SMALLEST, 0)
    ensures !InRoot(SMALLEST, 12) && !OnNode(SMALLEST, 12)
  {
    hide Walk, IsBlock, Denotes, Toks, Size, IndexOf;
    SmallestDenotes();
    var ts := [Begin([]), EndNode];
    OffStart(ts);
    OffNext(ts, 0);
    OffNext(ts, 1);
    IndexOfOff(ts, 0);
    assert CloseFrom(ts, 1, 0) == Some(2);
    NoNodeAt(ts, 12);
  }

  /** Below the root the node named "/", and behind it "c". */
  const TWO_NODES: seq<byte> :=
    [0, 0, 0, 1, 0, 0, 0, 0] + ([0, 0, 0, 1, 47, 0, 0, 0] + ([0, 0, 0, 2]
    + ([0, 0, 0, 1, 99, 0, 0, 0] + ([0, 0, 0, 2] + ([0, 0, 0, 2] + [0, 0, 0, 9])))))

  const TWO_TOKENS: seq<Token> := [Begin([]), Begin([47]), EndNode, Begin([99]), EndNode, EndNode]

  /** If there is room for the name of the first, the path of the second is torn. */
  lemma TornPath(cap: int)
    ensures Denotes(TWO_NODES, [], Node([], [], [Node([47], [], []), Node([99], [], [])]))
    ensures OnNode(TWO_NODES, 20) && (Slashed(Toks(TWO_NODES), NodeTok(TWO_NODES, 20), cap) <==> cap >= 3)
  {
    hide Walk, IsBlock, Toks, Size, IndexOf, Slashed, Meaning, Flatten, TWO_TOKENS, TWO_NODES;
    TwoNodes();
    TwoSlashed(cap);
    NodeTokIs(TWO_NODES, 20, 3);
  }

  lemma TwoNodes()
    ensures Denotes(TWO_NODES, [], Node([], [], [Node([47], [], []), Node([99], [], [])]))
    ensures Toks(TWO_NODES) == TWO_TOKENS && OnNode(TWO_NODES, 20) && IndexOf(Toks(TWO_NODES), 20) == Some(3)
  {
    hide Walk, IsBlock, Denotes, Toks, Size, IndexOf, Meaning, Flatten;
    TwoBlock();
    TwoMeaning();
    DenotesTokens(TWO_NODES, TWO_TOKENS, [], Node([], [], [Node([47], [], []), Node([99], [], [])]));
    OffStart(TWO_TOKENS);
    OffNext(TWO_TOKENS, 0);
    OffNext(TWO_TOKENS, 1);
    OffNext(TWO_TOKENS, 2);
    IndexOfOff(TWO_TOKENS, 3);
  }

  lemma TwoBlock()
    ensures IsBlock(TWO_NODES, TWO_TOKENS)
  {
    hide IsBlock, TokLen, IsToken;
    var ends := [0, 0, 0, 2];
    EmptyBlock();
    EndNodeToken(ends);
    NameToken([0, 0, 0, 1, 99, 0, 0, 0], [99]);
    NameToken([0, 0, 0, 1, 47, 0, 0, 0], [47]);
    NameToken([0, 0, 0, 1, 0, 0, 0, 0], []);
    var w1, ts1 := PutToken(ends, EndNode, [0, 0, 0, 9], []);
    var w2, ts2 := PutToken(ends, EndNode, w1, ts1);
    var w3, ts3 := PutToken([0, 0, 0, 1, 99, 0, 0, 0], Begin([99]), w2, ts2);
    var w4, ts4 := PutToken(ends, EndNode, w3, ts3);
    var w5, ts5 := PutToken([0, 0, 0, 1, 47, 0, 0, 0], Begin([47]), w4, ts4);
    var w6, ts6 := PutToken([0, 0, 0, 1, 0, 0, 0, 0], Begin([]), w5, ts5);
    assert ts6 == TWO_TOKENS;
  }

  lemma TwoMeaning()
    ensures Meaning(TWO_TOKENS, []) == Flatten(Node([], [], [Node([47], [], []), Node([99], [], [])]))
  {
    hide Meaning, Flatten, TWO_TOKENS;
    TwoEvents();
    TwoFlat();
  }

  lemma TwoEvents()
    ensures Meaning(TWO_TOKENS, []) == [Open([]), Open([47]), Close, Open([99]), Close, Close]
  {
    var ts := TWO_TOKENS;
    assert forall i | 0 <= i < 6 :: ts[i..][0] == ts[i] && ts[i..][1..] == ts[i + 1..];
    assert Meaning(ts[6..], []) == [];
    assert Meaning(ts[5..], []) == [Close] + Meaning(ts[6..], []);
    assert Meaning(ts[4..], []) == [Close] + Meaning(ts[5..], []);
    assert Meaning(ts[3..], []) == [Open([99])] + Meaning(ts[4..], []);
    assert Meaning(ts[2..], []) == [Close] + Meaning(ts[3..], []);
    assert Meaning(ts[1..], []) == [Open([47])] + Meaning(ts[2..], []);
  }

  lemma TwoFlat()
    ensures Flatten(Node([], [], [Node([47], [], []), Node([99], [], [])]))
            == [Open([]), Open([47]), Close, Open([99]), Close, Close]
  {
    hide FlattenProps;
    var ns := [Node([47], [], []), Node([99], [], [])];
    NothingSaid([]);
    assert ns[1..][1..] == [];
    assert FlattenAll(ns[1..]) == [Open([99]), Close] && FlattenAll(ns) == [Open([47]), Close, Open([99]), Close];
  }

  lemma TwoSlashed(cap: int)
    ensures Slashed(TWO_TOKENS, 3, cap) <==> cap >= 3
  {
    hide OpenNames, Join;
    var ts := TWO_TOKENS;
    OpenStep(ts, 0);
    OpenStep(ts, 1);
    JoinPush([], []);
    JoinPush([[]], [47]);
    NothingJoined();
    NothingOpen(ts);
    assert OpenNames(ts, 1) == [[]] && OpenNames(ts, 2) == [[]] + [[47]];
    assert !Slashed(ts, 0, cap) && !Slashed(ts, 1, cap) && !Slashed(ts, 2, cap);
  }

  lemma NothingOpen(ts: seq<Token>)
    ensures OpenNames(ts, 0) == []
  {
  }

  /** Behind padding the root is at offset 4, where it is not looked for. */
  lemma PaddedRoot()
    ensures var w := [0, 0, 0, 4] + SMALLEST;
            Denotes(w, [], Node([], [], [])) && Plain(Toks(w)) && OnNode(w, 4) && !OnNode(w, 0)
  {
    hide Walk, IsBlock, Denotes, Toks, Size, IndexOf;
    var ts := [Nop, Begin([]), EndNode];
    BehindPadding();
    OffStart(ts);
    OffNext(ts, 0);
    IndexOfOff(ts, 0);
    IndexOfOff(ts, 1);
  }

  lemma BehindPadding()
    ensures var w := [0, 0, 0, 4] + SMALLEST;
            Denotes(w, [], Node([], [], [])) && Toks(w) == [Nop, Begin([]), EndNode]
  {
    hide Walk, IsBlock, Toks, Denotes;
    var (w, us) := ([0, 0, 0, 4] + SMALLEST, [Begin([]), EndNode]);
    SmallestDenotes();
    SmallestMeaning();
    assert w[..4] == [0, 0, 0, 4] && w[4..] == SMALLEST;
    BlockCons(w, 4, Nop, us);
    assert [Nop] + us == [Nop, Begin([]), EndNode] && ([Nop] + us)[1..] == us;
    assert Meaning([Nop] + us, []) == [] + Meaning(us, []);
    DenotesTokens(w, [Nop] + us, [], Node([], [], []));
  }

  lemma SmallestMeaning()
    ensures Meaning([Begin([]), EndNode], []) == Flatten(Node([], [], [])) && IsBlock(SMALLEST, [Begin([]), EndNode])
  {
    hide Walk, IsBlock, Meaning, Flatten;
    SmallestDenotes();
  }

  lemma NoNodeAt(ts: seq<Token>, off: int)
    requires |ts| == 2 && ts[1].EndNode? && Off(ts, 0) != off
    ensures IndexOf(ts, off).Some? ==> !ts[IndexOf(ts, off).value].Begin?
  {
    hide IndexOf, Size;
  }

  lemma PathFails(w: seq<byte>, strs: seq<byte>, t: Node, off: int, cap: int, s: seq<byte>)
    requires Denotes(w, strs, t)
    ensures cap < 2 ==> PathOutcome(w, strs, t, off, cap, s, Done(-ERR_NOSPACE))
    ensures cap >= 2 && (!OnNode(w, 0) || (InRoot(w, off) && !OnNode(w, off))) ==>
              PathOutcome(w, strs, t, off, cap, s, Done(-ERR_BADOFFSET))
    ensures cap >= 2 && OnNode(w, 0) && !InRoot(w, off) ==>
              && PathOutcome(w, strs, t, off, cap, s, OutOfBuffer)
              && (!Plain(Toks(w)) ==> PathOutcome(w, strs, t, off, cap, s, Done(-ERR_BADOFFSET)))
  {
    hide Walk, IsBlock, Toks, Meaning, Flatten, IndexOf, Join, Names, PathAt, Slashed, Plain;
  }

  lemma VisitRoot(w: seq<byte>, strs: seq<byte>, t: Node, cap: nat)
    requires Denotes(w, strs, t) && OnNode(w, 0)
    ensures Visit(Toks(w), 0, 0) && Off(Toks(w), 0) == 0 && Follows([], OpenNames(Toks(w), 0), cap, false)
    ensures Holding([], [], false) && SlashFree([]) && !Slashed(Toks(w), 0, cap) && !Closing([], 0)
    ensures forall off | off < 0 :: InRoot(w, off) && !OnNode(w, off)
  {
    hide Walk, IsBlock, Toks, Meaning, Flatten, IndexOf, Size, CloseFrom;
    RootOffset(w, strs, t);
    RootSpan(w, strs, t);
    OffStart(Toks(w));
    forall off | off < 0
      ensures !OnNode(w, off)
    {
      if OnNode(w, off) {
        var i := NodeTok(w, off);
      }
    }
  }

  lemma VisitDepth(ts: seq<Token>, k: nat, d: int)
    requires Visit(ts, k, d)
    ensures k < |ts| && d == |OpenNames(ts, k)|
  {
  }

  /** What the walk knows when it stands at a node. */
  lemma VisitName(w: seq<byte>, k: nat, d: int)
    requires Block(w) && Visit(Toks(w), k, d)
    ensures var (ts, o) := (Toks(w), Off(Toks(w), k));
            && k < |ts| && ts[k].Begin? && 0 !in ts[k].name && CStr(w, o + 4) == Some(ts[k].name)
            && OpenNames(ts, k + 1) == OpenNames(ts, k) + [ts[k].name] && |OpenNames(ts, k)| == d
            && OnNode(w, o) && NodeTok(w, o) == k && IsNode(w, o) && Advances(w, o)
  {
    hide Walk, Toks, Size, CloseFrom, OpenNames, NextTag, Advances, Encodes, U32At, Join;
    var (ts, o) := (Toks(w), Off(Toks(w), k));
    OpenStep(ts, k);
    IndexOfOff(ts, k);
    TokenKind(w, k);
    BlockAdvances(w, k);
    EncodesAt(w[..|w| - 4], ts, k);
    assert w[..|w| - 4][o..Off(ts, k + 1)] == w[o..Off(ts, k + 1)];
    SliceSlice(w, o, Off(ts, k + 1), 4, 4 + |ts[k].name| + 1);
    CStrAt(w, o + 4, ts[k].name);
  }

  /** At the node asked for, the open names are those along its path. */
  lemma TargetNames(w: seq<byte>, strs: seq<byte>, t: Node, k: nat)
    requires Denotes(w, strs, t) && k < |Toks(w)| && OnNode(w, Off(Toks(w), k)) && NodeTok(w, Off(Toks(w), k)) == k
    ensures OpenNames(Toks(w), k + 1) == Names(t, PathAt(w, strs, t, Off(Toks(w), k)))
  {
    hide Walk, IsBlock, Toks, Meaning, Flatten, IndexOf, Size, OpenNames, Names, OnNode, NodeTok, NodeIndex;
    OpenIsPath(Toks(w), strs, t, PathAt(w, strs, t, Off(Toks(w), k)));
  }

  lemma PathTooLong(w: seq<byte>, strs: seq<byte>, t: Node, k: nat, names: seq<seq<byte>>, torn: bool, cap: int,
                    s: seq<byte>)
    requires Denotes(w, strs, t) && k < |Toks(w)| && OnNode(w, Off(Toks(w), k)) && NodeTok(w, Off(Toks(w), k)) == k
    requires cap >= 2 && OnNode(w, 0) && (torn <==> Slashed(Toks(w), k, cap))
    requires !torn ==> Buffered(names, OpenNames(Toks(w), k + 1), cap)
    requires names <= OpenNames(Toks(w), k + 1) && |names| < |OpenNames(Toks(w), k + 1)|
    ensures PathOutcome(w, strs, t, Off(Toks(w), k), cap, s, Done(-ERR_NOSPACE)) && InRoot(w, Off(Toks(w), k))
  {
    hide Walk, IsBlock, Toks, Meaning, Flatten, IndexOf, Size, OpenNames, Names, OnNode, NodeTok, PathAt, Join, InRoot,
         Slashed;
    NodeInRoot(w, strs, t, Off(Toks(w), k));
    TargetNames(w, strs, t, k);
    JoinGrows(OpenNames(Toks(w), k + 1), |names| + 1);
  }

  lemma PathBuilt(w: seq<byte>, strs: seq<byte>, t: Node, k: nat, names: seq<seq<byte>>, torn: bool, held: seq<byte>,
                  cap: int, s: seq<byte>, p: nat)
    requires Denotes(w, strs, t) && k < |Toks(w)| && OnNode(w, Off(Toks(w), k)) && NodeTok(w, Off(Toks(w), k)) == k
    requires cap >= 2 && OnNode(w, 0) && (torn <==> Slashed(Toks(w), k, cap))
    requires names == OpenNames(Toks(w), k + 1) && |held| <= cap && Holding(held, names, torn)
    requires torn ==> |names| >= 2
    requires p == if |held| > 1 then |held| - 1 else |held|
    requires p + 1 <= |s| && s[..p + 1] == held[..p] + [0]
    ensures PathOutcome(w, strs, t, Off(Toks(w), k), cap, s, Done(0)) && InRoot(w, Off(Toks(w), k))
  {
    hide Walk, IsBlock, Toks, Meaning, Flatten, IndexOf, Size, OpenNames, Names, OnNode, NodeTok, PathAt, Join, InRoot,
         Slashed, Slashes;
    NodeInRoot(w, strs, t, Off(Toks(w), k));
    TargetNames(w, strs, t, k);
    var path := PathString(names);
    if !torn {
      assert path == held[..p];
    } else if path + [0] <= s {
      NamesClean(w, strs, t, Off(Toks(w), k));
      TornLonger(held, names);
      OnlyOneString(held, Join(names), s, p);
    }
  }

  lemma TornLonger(s: seq<byte>, names: seq<seq<byte>>)
    requires Holding(s, names, true)
    ensures |s| > |names| && |Join(names)| >= |names|
  {
    hide Slashes;
    JoinSlashes(names);
    SlashesBound(s);
    SlashesBound(Join(names));
  }

  lemma {:induction false} SlashesBound(s: seq<byte>)
    ensures Slashes(s) <= |s|
  {
    if s != [] {
      SlashesBound(s[..|s| - 1]);
    }
  }

  /** The string in the buffer tells what was in it, unless that was a slash or nothing at all. */
  lemma OnlyOneString(held: seq<byte>, j: seq<byte>, s: seq<byte>, p: nat)
    requires held != [] && held[|held| - 1] == SLASH && 0 !in held && j != [] && j[|j| - 1] == SLASH && 0 !in j
    requires p == (if |held| > 1 then |held| - 1 else |held|) && p + 1 <= |s| && s[..p + 1] == held[..p] + [0]
    requires var q := if |j| > 1 then |j| - 1 else |j|; j[..q] + [0] <= s
    ensures |held| > 1 && |j| > 1 ==> held == j
  {
    var q := if |j| > 1 then |j| - 1 else |j|;
    assert s[p] == s[..p + 1][p] == 0 && s[q] == (j[..q] + [0])[q] == 0;
    assert forall i | 0 <= i < p :: s[i] == s[..p + 1][i] == held[i];
    assert forall i | 0 <= i < q :: s[i] == (j[..q] + [0])[i] == j[i];
  }

  // ---------------------------------------------------------------- and back

  lemma OneComponent(n: seq<byte>)
    requires SLASH !in n
    ensures Components(n) == if n == [] then [] else [n]
  {
    if n != [] {
      var q := NextSlash(n, 0);
      assert q == |n|;
      assert n[..q] == n && n[q..] == [];
    }
  }

  /** The components of each of the names in turn. */
  function Pieces(names: seq<seq<byte>>): (r: seq<seq<byte>>) {
    if names == [] then [] else Components(names[0]) + Pieces(names[1..])
  }

  lemma {:induction false} ComponentsOfJoin(names: seq<seq<byte>>)
    ensures Components(Join(names)) == Pieces(names)
  {
    hide Components, Join;
    if names == [] {
      NothingJoined();
      OneComponent([]);
    } else {
      JoinHead(names);
      ComponentsSplit(names[0], Join(names[1..]));
      ComponentsOfJoin(names[1..]);
    }
  }

  /** The components of the path string of a node are those of the names along its path. */
  lemma ComponentsOfPath(names: seq<seq<byte>>)
    ensures Components(PathString(names)) == Pieces(names)
  {
    hide Components, Join, Pieces;
    ComponentsOfJoin(names);
    var j := Join(names);
    if |j| > 1 {
      EndSlash(j[..|j| - 1]);
      JoinedEnd(names);
      assert j == j[..|j| - 1] + [SLASH];
    }
  }

  lemma JoinedEnd(names: seq<seq<byte>>)
    ensures Join(names) != [] ==> Join(names)[|Join(names)| - 1] == SLASH
  {
  }

  lemma EndSlash(s: seq<byte>)
    ensures Components(s + [SLASH]) == Components(s)
  {
    hide Components;
    ComponentsSplit(s, []);
    OneComponent([]);
    assert s + [SLASH] == s + [SLASH] + [] && Components(s) + [] == Components(s);
  }

  /** At every step of the path the node comes first among the siblings its own name matches. */
  predicate Unambiguous(n: Node, path: seq<nat>)
    requires IsPath(n, path)
  {
    path == []
    || (var c := n.children[path[0]];
        && (forall b | 0 <= b < path[0] :: !Matches(n.children[b].name, c.name))
        && Unambiguous(c, path[1..]))
  }

  /** Looking up the names along a path gives that path back exactly when it is unambiguous. */
  lemma {:induction false} ResolveNames(n: Node, path: seq<nat>)
    requires IsPath(n, path)
    ensures Resolve(n, Names(n, path)[1..]) == Some(path) <==> Unambiguous(n, path)
    decreases |path|
  {
    hide Matches;
    if path != [] {
      var (k, c) := (path[0], n.children[path[0]]);
      var cs := Names(n, path)[1..];
      assert cs == Names(c, path[1..]) && cs[0] == c.name && cs[1..] == Names(c, path[1..])[1..];
      SelfMatch(c.name);
      ResolveNames(c, path[1..]);
      assert path == [k] + path[1..];
      var f := FirstMatch(n.children, c.name);
      assert f.Some? && f.value <= k;
      assert f.value == k <==> forall b | 0 <= b < k :: !Matches(n.children[b].name, c.name);
      var r := Resolve(n.children[f.value], cs[1..]);
      if r.Some? {
        assert ([f.value] + r.value)[0] == f.value && ([f.value] + r.value)[1..] == r.value;
      }
    }
  }

  lemma {:induction false} ResolveLength(n: Node, cs: seq<seq<byte>>)
    ensures Resolve(n, cs).Some? ==> |Resolve(n, cs).value| == |cs|
    decreases |cs|
  {
    hide Matches, FirstMatch;
    if cs != [] && FirstMatch(n.children, cs[0]).Some? {
      ResolveLength(n.children[FirstMatch(n.children, cs[0]).value], cs[1..]);
    }
  }

  predicate Proper(name: seq<byte>) {
    name != [] && name[0] != SLASH
  }

  predicate AllProper(cs: seq<seq<byte>>) {
    forall i | 0 <= i < |cs| :: Proper(cs[i])
  }

  /** Every node on the way down has a name that could start a component. */
  predicate ProperWay(n: Node, path: seq<nat>)
    requires IsPath(n, path)
  {
    path == [] || (Proper(n.children[path[0]].name) && ProperWay(n.children[path[0]], path[1..]))
  }

  /** Every node on the way down has a name, and it holds no slash. */
  predicate AllNamed(n: Node, path: seq<nat>)
    requires IsPath(n, path)
  {
    path == []
    || (var name := n.children[path[0]].name; name != [] && SLASH !in name && AllNamed(n.children[path[0]], path[1..]))
  }

  lemma {:induction false} ProperJoin(n: Node, a: seq<nat>, b: seq<nat>)
    requires IsPath(n, a) && IsPath(Get(n, a), b) && ProperWay(n, a) && ProperWay(Get(n, a), b)
    ensures IsPath(n, a + b) && ProperWay(n, a + b)
    decreases |a|
  {
    hide Proper;
    PathJoin(n, a, b);
    if a == [] {
      assert a + b == b;
    } else {
      assert (a + b)[0] == a[0] && (a + b)[1..] == a[1..] + b;
      ProperJoin(n.children[a[0]], a[1..], b);
    }
  }

  lemma {:induction false} ComponentsProper(path: seq<byte>)
    ensures AllProper(Components(path))
    decreases |path|
  {
    if path != [] {
      if path[0] == SLASH {
        ComponentsProper(path[1..]);
      } else {
        ComponentsProper(path[NextSlash(path, 0)..]);
      }
    }
  }

  lemma {:induction false} PiecesProper(names: seq<seq<byte>>)
    ensures AllProper(Pieces(names))
  {
    hide Proper, Components;
    if names != [] {
      ComponentsProper(names[0]);
      PiecesProper(names[1..]);
    }
  }

  /** A node whose name could not start a component is never found. */
  lemma {:induction false} ResolveProper(n: Node, cs: seq<seq<byte>>)
    requires AllProper(cs)
    ensures Resolve(n, cs).Some? ==> ProperWay(n, Resolve(n, cs).value)
    decreases |cs|
  {
    hide Matches, FirstMatch, Proper;
    if cs != [] && FirstMatch(n.children, cs[0]).Some? {
      var c := FirstMatch(n.children, cs[0]).value;
      MatchProper(n.children, cs[0]);
      ResolveProper(n.children[c], cs[1..]);
      var r := Resolve(n.children[c], cs[1..]);
      if r.Some? {
        assert ([c] + r.value)[0] == c && ([c] + r.value)[1..] == r.value;
      }
    }
  }

  lemma MatchProper(ns: seq<Node>, name: seq<byte>)
    requires Proper(name)
    ensures FirstMatch(ns, name).Some? ==> Proper(ns[FirstMatch(ns, name).value].name)
  {
  }

  lemma {:induction false} MeantProper(t: Node, path: seq<byte>, n: nat)
    ensures Meant(t, path, n).Some? && Meant(t, path, n).value.At? ==> ProperWay(t, Meant(t, path, n).value.node)
    decreases n
  {
    hide Resolve, ResolveFrom, Components, AliasOf, FirstName, Behind, ProperWay, AllProper;
    if Rooted(path) {
      ComponentsProper(path);
      ResolveProper(t, Components(path));
    } else if AliasOf(t, FirstName(path)).StandsFor? && n > 0 {
      var v := AliasOf(t, FirstName(path)).path;
      MeantProper(t, v, n - 1);
      var m := Meant(t, v, n - 1);
      if m.Some? && m.value.At? {
        ComponentsProper(Behind(path));
        FromProper(t, m.value.node, Components(Behind(path)));
      }
    }
  }

  lemma FromProper(t: Node, at: seq<nat>, cs: seq<seq<byte>>)
    requires IsPath(t, at) && ProperWay(t, at) && AllProper(cs)
    ensures ResolveFrom(t, at, cs).Some? ==> ProperWay(t, ResolveFrom(t, at, cs).value)
  {
    hide Resolve, ProperWay, IsPath, Get, AllProper;
    ResolveProper(Get(t, at), cs);
    match Resolve(Get(t, at), cs)
    case None =>
    case Some(p) => ProperJoin(t, at, p);
  }

  // The names below the root, step by step.

  lemma WayDown(n: Node, path: seq<nat>)
    requires IsPath(n, path) && path != []
    ensures var (c, cs) := (n.children[path[0]], Names(n, path)[1..]);
            && cs[0] == c.name && cs[1..] == Names(c, path[1..])[1..]
            && Pieces(cs) == Components(c.name) + Pieces(Names(c, path[1..])[1..])
  {
    hide Components;
  }

  lemma FirstPiece(name: seq<byte>)
    requires Proper(name)
    ensures Components(name) != [] && Components(name)[0] == FirstName(name)
  {
  }

  /** Every name gives a component of its own. */
  lemma {:induction false} PiecesAtLeast(n: Node, path: seq<nat>)
    requires IsPath(n, path) && ProperWay(n, path)
    ensures |Pieces(Names(n, path)[1..])| >= |path|
    decreases |path|
  {
    hide Components, Pieces, Names, Proper;
    if path != [] {
      var c := n.children[path[0]];
      WayDown(n, path);
      FirstPiece(c.name);
      PiecesAtLeast(c, path[1..]);
    }
  }

  lemma {:induction false} NamedPieces(n: Node, path: seq<nat>)
    requires IsPath(n, path) && AllNamed(n, path)
    ensures Pieces(Names(n, path)[1..]) == Names(n, path)[1..]
    decreases |path|
  {
    hide Components;
    if path != [] {
      var (c, cs) := (n.children[path[0]], Names(n, path)[1..]);
      WayDown(n, path);
      OneComponent(c.name);
      NamedPieces(c, path[1..]);
      assert cs == [cs[0]] + cs[1..];
    }
  }

  /** The part of a name in front of its first slash does not match it. */
  lemma MatchWhole(name: seq<byte>)
    ensures Matches(name, FirstName(name)) ==> SLASH !in name
  {
    var q := NextSlash(name, 0);
    if q < |name| {
      assert name[q] == SLASH;
    }
  }

  /** The components of the names lead back only if none is empty or holds a slash. */
  lemma {:induction false} BackOnly(n: Node, path: seq<nat>)
    requires IsPath(n, path) && Resolve(n, Pieces(Names(n, path)[1..])) == Some(path)
    ensures AllNamed(n, path)
    decreases |path|
  {
    hide Components, Pieces, Names, FirstName, Matches, FirstMatch;
    if path != [] {
      var (c, cs) := (n.children[path[0]], Pieces(Names(n, path)[1..]));
      WayDown(n, path);
      ResolveLength(n, cs);
      PiecesProper(Names(n, path)[1..]);
      FirstMatched(n, cs, path);
      FirstPiece(c.name);
      MatchWhole(c.name);
      OneComponent(c.name);
      assert cs[1..] == Pieces(Names(c, path[1..])[1..]);
      BackOnly(c, path[1..]);
    }
  }

  lemma FirstMatched(n: Node, cs: seq<seq<byte>>, path: seq<nat>)
    requires cs != [] && path != [] && IsPath(n, path) && Resolve(n, cs) == Some(path) && Proper(cs[0])
    ensures var c := n.children[path[0]];
            Matches(c.name, cs[0]) && Proper(c.name) && Resolve(c, cs[1..]) == Some(path[1..])
  {
    hide Matches, Proper;
    MatchProper(n.children, cs[0]);
    var f := FirstMatch(n.children, cs[0]).value;
    var r := Resolve(n.children[f], cs[1..]).value;
    assert ([f] + r)[0] == f && ([f] + r)[1..] == r;
  }

  lemma NothingJoined()
    ensures Join([]) == []
  {
  }

  lemma WholeName(n: seq<byte>)
    requires SLASH !in n
    ensures FirstName(n) == n && Behind(n) == []
  {
    assert NextSlash(n, 0) == |n|;
  }

  lemma {:induction false} JoinHead(names: seq<seq<byte>>)
    requires |names| > 0
    ensures Join(names) == names[0] + [SLASH] + Join(names[1..])
    decreases |names|
  {
    if |names| == 1 {
      assert names[..0] == [] && names[1..] == [];
    } else {
      var k := |names| - 1;
      JoinHead(names[..k]);
      assert names[..k][1..] == names[1..][..k - 1] && names[1..][k - 1] == names[k];
    }
  }

  /** When the path of a node leads back to it: every node on the way has a name without a slash, none has an earlier
      sibling its name matches, and the root has no name, or one that is an alias for it. */
  predicate LeadsBack(t: Node, path: seq<nat>, n: nat)
    requires IsPath(t, path)
  {
    AllNamed(t, path) && Unambiguous(t, path) && (t.name == [] || Meant(t, t.name, n) == Some(At([])))
  }

  /** A node can be found again by its path string exactly then. The path of a node below a named root is
      taken for one that starts with an alias. */
  lemma PathLeadsBack(t: Node, path: seq<nat>, n: nat)
    requires IsPath(t, path)
    ensures Meant(t, PathString(Names(t, path)), n) == Some(At(path)) <==> LeadsBack(t, path, n)
    ensures t.name != [] && SLASH !in t.name && AliasOf(t, t.name).NoAlias? ==>
              Meant(t, PathString(Names(t, path)), n) == Some(Fails(-ERR_BADPATH))
  {
    hide Components, Resolve, ResolveFrom, Unambiguous, AllNamed, Names, IsPath, PathString, Pieces, AliasOf,
         FirstName, Behind, Meant, ProperWay;
    var names := Names(t, path);
    RootFirst(t, path);
    if t.name == [] {
      RootedPath(names);
      MeantRooted(t, PathString(names), n);
      BackFrom(t, path, []);
      ResolveAll(t, Pieces(names[1..]));
    } else {
      var b := BehindRootName(names);
      MeantOnwards(t, t.name, b, n);
      var m := Meant(t, t.name, n);
      if m.Some? && m.value.At? {
        MeantProper(t, t.name, n);
        BackFrom(t, path, m.value.node);
      }
      if SLASH !in t.name {
        WholeName(t.name);
        MeantNoAlias(t, t.name, n);
      }
    }
  }

  lemma MeantRooted(t: Node, path: seq<byte>, n: nat)
    requires Rooted(path)
    ensures Meant(t, path, n) == Some(FdtAlias.Found(Resolve(t, Components(path))))
  {
  }

  lemma MeantNoAlias(t: Node, name: seq<byte>, n: nat)
    requires FirstName(name) == name && !Rooted(name)
    ensures AliasOf(t, name).NoAlias? ==> Meant(t, name, n) == Some(Fails(-ERR_BADPATH))
  {
    hide AliasOf;
  }

  /** Below a nameless root the path string starts with a slash. */
  lemma RootedPath(names: seq<seq<byte>>)
    requires |names| > 0 && names[0] == []
    ensures Rooted(PathString(names)) && Components(PathString(names)) == Pieces(names[1..])
  {
    hide Components, Join;
    JoinHead(names);
    ComponentsOfPath(names);
    OneComponent([]);
    assert [] + Pieces(names[1..]) == Pieces(names[1..]);
  }

  /** Below a named root it starts with that name and goes on with the other names. */
  lemma BehindRootName(names: seq<seq<byte>>) returns (b: seq<byte>)
    requires |names| > 0 && names[0] != []
    ensures PathString(names) == names[0] + b && (b == [] || b[0] == SLASH) && Components(b) == Pieces(names[1..])
  {
    hide Components, Pieces, Join;
    var (n, rest) := (names[0], Join(names[1..]));
    var s := [SLASH] + rest;
    JoinHead(names);
    JoinedEnd(names);
    b := s[..|s| - 1];
    assert Join(names) == n + s;
    assert PathString(names) == n + b;
    assert s == b + [SLASH] by { assert Join(names)[|Join(names)| - 1] == s[|s| - 1]; }
    EndSlash(b);
    ComponentsOfJoin(names[1..]);
    ComponentsSplit([], rest);
    OneComponent([]);
    assert s == [] + [SLASH] + rest && [] + Components(rest) == Components(rest);
  }

  lemma RootFirst(t: Node, path: seq<nat>)
    requires IsPath(t, path)
    ensures |Names(t, path)| == |path| + 1 && Names(t, path)[0] == t.name && IsPath(t, []) && ProperWay(t, [])
  {
  }

  lemma ResolveAll(t: Node, cs: seq<seq<byte>>)
    ensures ResolveFrom(t, [], cs) == Resolve(t, cs)
  {
    hide Resolve;
    if Resolve(t, cs).Some? {
      assert [] + Resolve(t, cs).value == Resolve(t, cs).value;
    }
  }

  /** Following the names below the root leads to the node only from the root itself. */
  lemma BackFrom(t: Node, path: seq<nat>, at: seq<nat>)
    requires IsPath(t, path) && IsPath(t, at) && ProperWay(t, at)
    ensures ResolveFrom(t, at, Pieces(Names(t, path)[1..])) == Some(path)
            <==> at == [] && AllNamed(t, path) && Unambiguous(t, path)
  {
    hide Resolve, Unambiguous, AllNamed, Names, IsPath, Pieces, Get, ProperWay, AllProper;
    var cs := Pieces(Names(t, path)[1..]);
    RootFirst(t, path);
    ResolveNames(t, path);
    ResolveAll(t, cs);
    PiecesProper(Names(t, path)[1..]);
    FromProper(t, at, cs);
    ResolveLength(Get(t, at), cs);
    if ResolveFrom(t, at, cs) == Some(path) {
      PiecesAtLeast(t, path);
      assert at == [];
      BackOnly(t, path);
    }
    if AllNamed(t, path) {
      NamedPieces(t, path);
    }
  }

  /** The path of the node "a" below a root named "r" is "r/a", and leads nowhere. */
  lemma NamedRoot(n: nat)
    ensures var t := Node([114], [], [Node([97], [], [])]);
            && IsPath(t, [0]) && AllNamed(t, [0]) && Unambiguous(t, [0]) && PathString(Names(t, [0])) == [114, 47, 97]
            && Meant(t, PathString(Names(t, [0])), n) == Some(Fails(-ERR_BADPATH))
  {
    hide Meant, Components, FirstMatch, Matches, AliasOf;
    var t := Node([114], [], [Node([97], [], [])]);
    JoinPush([], [114]);
    JoinPush([[114]], [97]);
    assert Names(t, [0]) == [] + [[114]] + [[97]];
    assert [0][1..] == [];
    NoAliases(t);
    PathLeadsBack(t, [0], n);
  }

  lemma NoAliases(t: Node)
    requires t == Node([114], [], [Node([97], [], [])])
    ensures AliasOf(t, [114]) == NoAlias
  {
    hide Components, FirstMatch;
    AliasComponents();
    OtherName(t.children, ALIASES[1..]);
  }

  lemma OtherName(ns: seq<Node>, name: seq<byte>)
    requires ns == [Node([97], [], [])] && |name| > 1
    ensures FirstMatch(ns, name) == None
  {
    assert ns[1..] == [];
  }

  /** The path of the node named "a" behind one named "a@1" leads to that one. */
  lemma PathLeadsAstray()
    ensures var t := Node([], [], [Node([97, 64, 49], [], []), Node([97], [], [])]);
            && IsPath(t, [1]) && PathString(Names(t, [1])) == [47, 97]
            && forall n: nat :: Meant(t, PathString(Names(t, [1])), n) == Some(At([0]))
  {
    hide Components, Resolve, Names, PathString, Join;
    var t := Node([], [], [Node([97, 64, 49], [], []), Node([97], [], [])]);
    PathOfSecond(t);
    FirstForSecond(t);
    SlashA();
  }

  lemma PathOfSecond(t: Node)
    requires |t.children| == 2 && t.name == [] && t.children[1].name == [97]
    ensures IsPath(t, [1]) && PathString(Names(t, [1])) == [47, 97]
  {
    hide Join, Names;
    assert [1][1..] == [];
    var names := Names(t, [1]);
    PathUnfold(t, [1]);
    PathUnfold(t.children[1], []);
    assert names[0] == [] && names[1..][0] == [97] && Join(names[1..][1..]) == Join([]);
    JoinHead(names);
    JoinHead(names[1..]);
    NothingJoined();
    assert Join(names) == [47, 97, 47];
  }

  lemma FirstForSecond(t: Node)
    requires |t.children| == 2 && t.children[0].name == [97, 64, 49]
    ensures Resolve(t, [[97]]) == Some([0])
  {
    hide FirstMatch, Matches;
    UnitMatches(t.children);
    assert [[97]][1..] == [] && [0] + [] == [0];
  }

  lemma SlashA()
    ensures Components([47, 97]) == [[97]]
  {
    hide Components;
    ComponentsUnfold([47, 97]);
    OneComponent([97]);
    assert [47, 97][1..] == [97];
  }

  lemma UnitMatches(ns: seq<Node>)
    requires |ns| > 0 && ns[0].name == [97, 64, 49]
    ensures FirstMatch(ns, [97]) == Some(0)
  {
  }

  // ---------------------------------------------------------------- the round trip

  lemma {:induction false} OpenNamesClean(ts: seq<Token>, j: nat)
    requires j <= |ts| && forall i | 0 <= i < |ts| && ts[i].Begin? :: 0 !in ts[i].name
    ensures forall i | 0 <= i < |OpenNames(ts, j)| :: 0 !in OpenNames(ts, j)[i]
  {
    if j > 0 {
      OpenNamesClean(ts, j - 1);
    }
  }

  lemma {:induction false} JoinClean(names: seq<seq<byte>>)
    requires forall i | 0 <= i < |names| :: 0 !in names[i]
    ensures 0 !in Join(names)
  {
    if names != [] {
      JoinClean(names[..|names| - 1]);
    }
  }

  lemma BeginNames(w: seq<byte>, i: nat)
    requires Block(w) && i < |Toks(w)| && Toks(w)[i].Begin?
    ensures 0 !in Toks(w)[i].name
  {
    hide Walk, Toks, Size, Encodes, U32At;
    EncodesAt(w[..|w| - 4], Toks(w), i);
  }

  lemma NamesClean(w: seq<byte>, strs: seq<byte>, t: Node, off: int)
    requires Denotes(w, strs, t) && OnNode(w, off)
    ensures var names := Names(t, PathAt(w, strs, t, off)); 0 !in Join(names) && 0 !in PathString(names)
  {
    hide Walk, IsBlock, Toks, Meaning, Flatten, IndexOf, Size, OpenNames, Join, OnNode, NodeTok, NodeIndex;
    var (ts, path) := (Toks(w), PathAt(w, strs, t, off));
    forall i | 0 <= i < |ts| && ts[i].Begin?
      ensures 0 !in ts[i].name
    {
      BeginNames(w, i);
    }
    OpenIsPath(ts, strs, t, path);
    OpenNamesClean(ts, NodeTok(w, off) + 1);
    JoinClean(Names(t, path));
  }

  /** Asking for the path of a node and looking that path up returns to the node exactly when the path leads
      back, unless the path is torn, or an alias on the way has no terminator. */
  method PathRoundTrip(w: seq<byte>, strs: seq<byte>, nodeoffset: int, buf: array<byte>, depth: nat, ghost t: Node)
    returns (out: Outcome, r: Option<int>)
    requires Denotes(w, strs, t) && OnNode(w, nodeoffset)
    modifies buf
    ensures PathOutcome(w, strs, t, nodeoffset, buf.Length, buf[..], out)
    ensures out.Done?
    ensures out == Done(0) && !Slashed(Toks(w), NodeTok(w, nodeoffset), buf.Length) ==>
              var path := PathAt(w, strs, t, nodeoffset);
              Meant(t, PathString(Names(t, path)), depth) != Some(Unsaid) ==>
              (r == Some(nodeoffset) <==> LeadsBack(t, path, depth))
  {
    hide Walk, IsBlock, Toks, Meaning, Flatten, IndexOf, Size, Block, Join, Names, OnNode, NodeTok, PathAt, InRoot,
         Named, CStr, PathString, Meant, LeadsBack, NodeIndex, IsPath, Plain, Slashed;
    if OnNode(w, 0) {
      NodeInRoot(w, strs, t, nodeoffset);
    }
    out := GetPath(w, strs, nodeoffset, buf, t);
    r := None;
    if out == Done(0) {
      r := PathOffset(w, strs, CStr(buf[..], 0).value, depth, t);
      if !Slashed(Toks(w), NodeTok(w, nodeoffset), buf.Length) {
        ghost var path := PathAt(w, strs, t, nodeoffset);
        ghost var s := PathString(Names(t, path));
        NamesClean(w, strs, t, nodeoffset);
        assert buf[..][0..0 + |s| + 1] == s + [0];
        CStrAt(buf[..], 0, s);
        PathLeadsBack(t, path, depth);
        SameOffset(w, strs, t, nodeoffset, Meant(t, s, depth), r);
      }
    }
  }

  /** Two paths with the same offset are one. */
  lemma SameOffset(w: seq<byte>, strs: seq<byte>, t: Node, off: int, p: Option<Answer>, r: Option<int>)
    requires Denotes(w, strs, t) && OnNode(w, off)
    requires p.None? ==> r == None
    requires p.Some? && p.value.At? ==>
               IsPath(t, p.value.node) && r == Some(NodeOffset(w, strs, t, p.value.node))
    requires p.Some? && p.value.Fails? ==> p.value.err < 0 && r == Some(p.value.err)
    ensures p != Some(Unsaid) ==> (r == Some(off) <==> p == Some(At(PathAt(w, strs, t, off))))
  {
    hide Walk, IsBlock, Toks, Meaning, Flatten, Size, NodeIndex, IsPath, PathTo, IndexOf;
    var i := NodeTok(w, off);
    if p.Some? && p.value.At? {
      PathOffsets(w, strs, t, p.value.node);
    }
  }
}
