/** Child lookup by name and the two directions between nodes and path strings. */
module FdtPath {
  import opened Bytes
  import opened FdtFormat
  import opened FdtTree
  import opened FdtNodes
  import opened FdtProps
  import opened FdtEdits
  import opened FdtRo

  const SLASH: byte := 47
  const AT: byte := 64

  // ---------------------------------------------------------------- names

  /** A path component names a node by its full name, or by its name up to the unit address. */
  predicate Matches(name: seq<byte>, s: seq<byte>) {
    s <= name && (|name| == |s| || (AT !in s && name[|s|] == AT))
  }

  /** That is, by its full name, or by all in front of an at sign, if that has none itself. */
  lemma MatchesMeans(name: seq<byte>, s: seq<byte>)
    ensures Matches(name, s) <==> name == s || (64 !in s && exists unit: seq<byte> :: name == s + [64] + unit)
  {
    if Matches(name, s) && name != s {
      assert name == s + [64] + name[|s| + 1..];
    }
    forall unit: seq<byte> | name == s + [64] + unit && AT !in s ensures Matches(name, s) {
      assert name[..|s|] == s;
    }
  }

  /** The comparison the code makes on the bytes behind a begin tag. */
  predicate NodenameEq(w: seq<byte>, o: int, s: seq<byte>) {
    && InWindow(w, o + 4, |s| + 1) && w[o + 4..o + 4 + |s|] == s
    && (w[o + 4 + |s|] == 0 || (AT !in s && w[o + 4 + |s|] == AT))
  }

  /** On a begin tag of a block the byte comparison decides whether the name matches: it never
      reads past the name by mistake. */
  lemma NodenameMatches(w: seq<byte>, k: nat, s: seq<byte>)
    requires Block(w) && k < |Toks(w)| && Toks(w)[k].Begin? && 0 !in s
    ensures NodenameEq(w, Off(Toks(w), k), s) <==> Matches(Toks(w)[k].name, s)
  {
    hide Walk, Toks, IndexOf, Size, Encodes, U32At;
    var (ts, o, name) := (Toks(w), Off(Toks(w), k), Toks(w)[k].name);
    EncodesAt(w[..|w| - 4], ts, k);
    assert w[..|w| - 4][o..Off(ts, k + 1)] == w[o..Off(ts, k + 1)];
    SliceSlice(w, o, Off(ts, k + 1), 4, 4 + |name| + 1);
    NameBytes(w, o + 4, name, s);
  }

  lemma NameBytes(w: seq<byte>, a: nat, name: seq<byte>, s: seq<byte>)
    requires a + |name| + 1 <= |w| && w[a..a + |name| + 1] == name + [0] && 0 !in name && 0 !in s
    ensures InWindow(w, a, |s| + 1) && w[a..a + |s|] == s && (w[a + |s|] == 0 || (AT !in s && w[a + |s|] == AT))
            <==> Matches(name, s)
  {
    var z := w[a..a + |name| + 1];
    assert z[|name|] == w[a + |name|] == 0;
    if |s| <= |name| {
      SliceSlice(w, a, a + |name| + 1, 0, |s|);
      assert z[..|s|] == name[..|s|] && z[|s|] == w[a + |s|];
      assert s <= name <==> s == name[..|s|];
    } else if InWindow(w, a, |s| + 1) {
      assert w[a..a + |s|][|name|] == w[a + |name|];
    }
  }

  // ---------------------------------------------------------------- children

  /** The first child whose name matches. */
  function FirstMatch(ns: seq<Node>, s: seq<byte>): (r: Option<nat>)
    ensures r.Some? ==> r.value < |ns| && Matches(ns[r.value].name, s)
                        && forall c | 0 <= c < r.value :: !Matches(ns[c].name, s)
    ensures r.None? ==> forall c | 0 <= c < |ns| :: !Matches(ns[c].name, s)
  {
    if ns == [] then None
    else if Matches(ns[0].name, s) then Some(0)
    else match FirstMatch(ns[1..], s)
      case None => None
      case Some(c) =>
        assert forall b | 0 < b < c + 1 :: ns[b] == ns[1..][b - 1];
        Some(c + 1)
  }

  /** The begin tag of the first matching child, searched from token `j` at nesting depth `d`. */
  function ChildFrom(ts: seq<Token>, j: nat, d: nat, s: seq<byte>): (r: Option<nat>)
    requires j <= |ts|
    ensures r.Some? ==> j <= r.value < |ts| && ts[r.value].Begin?
    decreases |ts| - j
  {
    if j == |ts| then None
    else match ts[j]
      case Begin(name) => if d == 0 && Matches(name, s) then Some(j) else ChildFrom(ts, j + 1, d + 1, s)
      case EndNode => if d == 0 then None else ChildFrom(ts, j + 1, d - 1, s)
      case _ => ChildFrom(ts, j + 1, d, s)
  }

  lemma ChildStep(ts: seq<Token>, j: nat, d: nat, s: seq<byte>)
    requires j < |ts|
    ensures ts[j].Prop? || ts[j].Nop? ==> ChildFrom(ts, j, d, s) == ChildFrom(ts, j + 1, d, s)
    ensures ts[j].EndNode? ==> ChildFrom(ts, j, d, s) == if d == 0 then None else ChildFrom(ts, j + 1, d - 1, s)
    ensures ts[j].Begin? ==>
              ChildFrom(ts, j, d, s)
              == if d == 0 && Matches(ts[j].name, s) then Some(j) else ChildFrom(ts, j + 1, d + 1, s)
  {
  }

  /** The node walk and the search for a child go the same way. */
  lemma {:induction false} SeekChild(ts: seq<Token>, j: nat, d: nat, s: seq<byte>)
    requires j <= |ts|
    ensures match SeekNode(ts, j, d)
            case Found(k, dk) => j <= k < |ts| && ts[k].Begin? && dk > 0
                                 && ChildFrom(ts, j, d, s)
                                    == if dk == 1 && Matches(ts[k].name, s) then Some(k)
                                       else ChildFrom(ts, k + 1, dk, s)
            case _ => ChildFrom(ts, j, d, s) == None
    decreases |ts| - j
  {
    hide Matches;
    if j < |ts| && !ts[j].Begin? && !(ts[j].EndNode? && d == 0) {
      SeekChild(ts, j + 1, d + Level(ts[j]), s);
    }
  }

  /** Inside a child that does not match, the search runs to its end tag. */
  lemma {:induction false} ChildOver(ts: seq<Token>, j: nat, d: nat, s: seq<byte>)
    requires j <= |ts| && CloseFrom(ts, j, d).Some?
    ensures ChildFrom(ts, j, d + 1, s) == ChildFrom(ts, CloseFrom(ts, j, d).value, 0, s)
    decreases |ts| - j
  {
    hide Matches;
    if !(ts[j].EndNode? && d == 0) {
      ChildOver(ts, j + 1, d + Level(ts[j]), s);
    }
  }

  lemma AllFirst(ns: seq<Node>, rest: seq<Event>)
    ensures ns == [] ==> FlattenAll(ns) + ([Close] + rest) == [Close] + rest
    ensures ns != [] ==> FlattenAll(ns) + ([Close] + rest)
                         == [Open(ns[0].name)] + (Inner(ns[0]) + ([Close] + (FlattenAll(ns[1..]) + ([Close] + rest))))
  {
    hide Inner, Flatten;
  }

  lemma FirstMatchTail(ns: seq<Node>, s: seq<byte>)
    requires ns != [] && !Matches(ns[0].name, s)
    ensures match FirstMatch(ns[1..], s)
            case None => FirstMatch(ns, s) == None
            case Some(c) => FirstMatch(ns, s) == Some(c + 1)
                            && FlattenAll(ns[..c + 1]) == Flatten(ns[0]) + FlattenAll(ns[1..][..c])
  {
    hide Matches, Flatten;
    match FirstMatch(ns[1..], s)
    case None =>
    case Some(c) => assert ns[..c + 1][1..] == ns[1..][..c];
  }

  /** The search among the tokens finds exactly the first matching child. */
  lemma {:induction false} ChildSearch(ts: seq<Token>, strs: seq<byte>, j: nat, cs: seq<Node>, rest: seq<Event>,
                                       s: seq<byte>)
    requires j <= |ts| && Meaning(ts[j..], strs) == FlattenAll(cs) + ([Close] + rest)
    ensures match FirstMatch(cs, s)
            case None => ChildFrom(ts, j, 0, s) == None
            case Some(c) => ChildFrom(ts, j, 0, s).Some?
                            && |Meaning(ts[j..ChildFrom(ts, j, 0, s).value], strs)| == |FlattenAll(cs[..c])|
    decreases |ts| - j
  {
    hide Meaning, Flatten, FlattenAll, Inner, ChildFrom, Matches, CloseFrom, FirstMatch;
    AllFirst(cs, rest);
    MeaningNil(ts, strs);
    MeaningRun(ts, j, |ts|, strs);
    ChildStep(ts, j, 0, s);
    OneEvent(ts[j], strs);
    assert ts[j..|ts|] == ts[j..] && ts[j + 1..|ts|] == ts[j + 1..];
    var tl := Meaning(ts[j + 1..], strs);
    if ts[j].Nop? || EventsOf(ts[j], strs) == [] {
      assert [] + tl == tl;
      ChildSearch(ts, strs, j + 1, cs, rest, s);
      ChildLater(ts, strs, j, j + 1, s);
      MeaningRun(ts, j, j + 1, strs);
    } else if cs != [] {
      CutEqual(EventsOf(ts[j], strs), tl, [Open(cs[0].name)],
               Inner(cs[0]) + ([Close] + (FlattenAll(cs[1..]) + ([Close] + rest))));
      FirstMatchFacts(cs, s);
      if !Matches(cs[0].name, s) {
        InnerSpan(ts, strs, j + 1, cs[0], FlattenAll(cs[1..]) + ([Close] + rest));
        ChildOver(ts, j + 1, 0, s);
        var e := CloseFrom(ts, j + 1, 0).value;
        ChildSearch(ts, strs, e, cs[1..], rest, s);
        FirstMatchTail(cs, s);
        ChildLater(ts, strs, j, e, s);
        MeaningRun(ts, j, e, strs);
      }
    } else {
      CutEqual(EventsOf(ts[j], strs), tl, [Close], rest);
      FirstMatchFacts(cs, s);
    }
  }

  lemma FirstMatchFacts(ns: seq<Node>, s: seq<byte>)
    ensures ns == [] ==> FirstMatch(ns, s) == None
    ensures ns != [] && Matches(ns[0].name, s) ==> FirstMatch(ns, s) == Some(0) && FlattenAll(ns[..0]) == []
  {
    hide Matches;
  }

  lemma ChildLater(ts: seq<Token>, strs: seq<byte>, j: nat, e: nat, s: seq<byte>)
    requires j <= e <= |ts|
    ensures ChildFrom(ts, e, 0, s).Some? ==>
              |Meaning(ts[j..ChildFrom(ts, e, 0, s).value], strs)|
              == |Meaning(ts[j..e], strs)| + |Meaning(ts[e..ChildFrom(ts, e, 0, s).value], strs)|
  {
    hide Meaning;
    var k := ChildFrom(ts, e, 0, s);
    if k.Some? {
      assert ts[j..k.value] == ts[j..e] + ts[e..k.value];
      MeaningConcat(ts[j..e], ts[e..k.value], strs);
    }
  }

  /** One step down from the node at `p`. */
  lemma {:induction false} PathSnoc(n: Node, p: seq<nat>, c: nat)
    requires IsPath(n, p) && c < |Get(n, p).children|
    ensures IsPath(n, p + [c]) && Get(n, p + [c]) == Get(n, p).children[c]
    ensures Before(n, p + [c]) == Before(n, p) + Head(Get(n, p), c)
    decreases |p|
  {
    hide Head;
    if p == [] {
      assert p + [c] == [c] && [c][1..] == [];
      assert Before(n.children[c], []) == [];
    } else {
      assert (p + [c])[1..] == p[1..] + [c];
      PathSnoc(n.children[p[0]], p[1..], c);
    }
  }

  /** The child found among the tokens is the node one step down, at that child's index. */
  lemma ChildPlace(w: seq<byte>, strs: seq<byte>, t: Node, off: int, s: seq<byte>)
    requires Denotes(w, strs, t) && OnNode(w, off)
    ensures var (path, k) := (PathAt(w, strs, t, off), ChildFrom(Toks(w), NodeTok(w, off) + 1, 0, s));
            match FirstMatch(Get(t, path).children, s)
            case None => k == None
            case Some(c) => k.Some? && IsPath(t, path + [c]) && NodeIndex(Toks(w), strs, t, path + [c]) == k.value
  {
    hide Walk, IsBlock, Toks, Meaning, Flatten, FlattenAll, FlattenProps, IndexOf, Size, NodeIndex, IsPath, Get, Before,
         FirstMatch, ChildFrom, AfterProps, Head, After, Matches;
    var (ts, i, path) := (Toks(w), NodeTok(w, off), PathAt(w, strs, t, off));
    var (n, p) := (Get(t, path), AfterProps(ts, i + 1));
    AfterPropsCut(ts, strs, t, path);
    PropsSkipped(ts, i + 1, s);
    ChildSearch(ts, strs, p, n.children, After(t, path), s);
    match FirstMatch(n.children, s)
    case None =>
    case Some(c) =>
      PathSnoc(t, path, c);
      ChildIndex(ts, strs, t, path, c, p, ChildFrom(ts, p, 0, s).value);
  }

  lemma {:induction false} PropsSkipped(ts: seq<Token>, j: nat, s: seq<byte>)
    requires j <= |ts|
    ensures ChildFrom(ts, j, 0, s) == ChildFrom(ts, AfterProps(ts, j), 0, s)
    decreases |ts| - j
  {
    hide Matches;
    if j < |ts| && (ts[j].Prop? || ts[j].Nop?) {
      PropsSkipped(ts, j + 1, s);
    }
  }

  lemma ChildIndex(ts: seq<Token>, strs: seq<byte>, t: Node, path: seq<nat>, c: nat, p: nat, k: nat)
    requires IsPath(t, path) && c < |Get(t, path).children| && Meaning(ts, strs) == Flatten(t)
    requires p <= k < |ts| && ts[k].Begin?
    requires var n := Get(t, path); Meaning(ts[..p], strs) == Before(t, path) + [Open(n.name)] + FlattenProps(n.props)
    requires |Meaning(ts[p..k], strs)| == |FlattenAll(Get(t, path).children[..c])|
    requires IsPath(t, path + [c]) && Before(t, path + [c]) == Before(t, path) + Head(Get(t, path), c)
    ensures NodeIndex(ts, strs, t, path + [c]) == k
  {
    hide Meaning, Flatten, FlattenAll, FlattenProps, IsPath, Get, Before, RawIndex;
    assert ts[..k] == ts[..p] + ts[p..k];
    MeaningConcat(ts[..p], ts[p..k], strs);
    RawIndexUnique(ts, strs, k);
  }

  /** Finds a child by name, or by the part of its name before the unit address. A negative offset, which
      is somebody else's error code, is returned as it is. */
  method SubnodeOffset(w: seq<byte>, parent: int, s: seq<byte>) returns (r: int)
    requires Block(w) && 0 !in s && (IsNode(w, parent) ==> OnNode(w, parent))
    ensures parent < 0 ==> r == parent
    ensures parent >= 0 && !IsNode(w, parent) ==> r == -ERR_BADOFFSET
    ensures IsNode(w, parent) ==>
              match ChildFrom(Toks(w), NodeTok(w, parent) + 1, 0, s)
              case Some(k) => r == Off(Toks(w), k)
              case None => r == -ERR_NOTFOUND
  {
    hide Walk, IsBlock, Toks, NextTag, Size, SeekNode, ChildFrom, IndexOf, Advances, Matches;
    var offset, depth := parent, 0;
    if IsNode(w, parent) {
      NodeAdvances(w, parent);
    }
    while offset >= 0 && depth >= 0
      invariant parent < 0 ==> offset == parent
      invariant !IsNode(w, parent) ==> depth == 0 && (offset == parent || offset == -ERR_BADOFFSET)
      invariant offset >= 0 ==> offset >= parent && (IsNode(w, offset) ==> Advances(w, offset))
      invariant IsNode(w, parent) ==> ChildSought(w, parent, s, offset, depth)
      decreases if offset < 0 || depth < 0 then 0 else if offset <= |w| then |w| - offset + 1 else 1
    {
      if IsNode(w, parent) {
        ChildMatched(w, parent, s, offset, depth);
      }
      if depth == 1 && NodenameEq(w, offset, s) {
        return offset;
      }
      ghost var (was, at) := (offset, depth);
      offset, depth := NextNode(w, offset, depth);
      if IsNode(w, parent) {
        ChildSoughtStep(w, parent, s, was, at, offset, depth);
      }
    }
    return if depth < 0 then -ERR_NOTFOUND else offset;
  }

  lemma NodeAdvances(w: seq<byte>, off: int)
    requires Block(w) && OnNode(w, off)
    ensures Advances(w, off)
  {
    hide Walk, IsBlock, Toks, IndexOf, Size, Advances;
    BlockAdvances(w, NodeTok(w, off));
  }

  /** How far the search for a child has come. */
  predicate ChildSought(w: seq<byte>, parent: int, s: seq<byte>, r: int, depth: int)
    requires Block(w) && OnNode(w, parent)
  {
    var (ts, goal) := (Toks(w), ChildFrom(Toks(w), NodeTok(w, parent) + 1, 0, s));
    if r < 0 then r == -ERR_NOTFOUND && goal == None
    else if depth < 0 then goal == None
    else
      && OnNode(w, r)
      && goal == if depth == 1 && Matches(ts[NodeTok(w, r)].name, s) then Some(NodeTok(w, r))
                 else ChildFrom(ts, NodeTok(w, r) + 1, depth, s)
  }

  lemma ChildMatched(w: seq<byte>, parent: int, s: seq<byte>, r: int, depth: nat)
    requires Block(w) && OnNode(w, parent) && 0 !in s && r >= 0 && ChildSought(w, parent, s, r, depth)
    ensures OnNode(w, r) && (NodenameEq(w, r, s) <==> Matches(Toks(w)[NodeTok(w, r)].name, s))
    ensures depth == 1 && NodenameEq(w, r, s) ==>
              ChildFrom(Toks(w), NodeTok(w, parent) + 1, 0, s) == Some(NodeTok(w, r))
  {
    hide Walk, IsBlock, Toks, Size, ChildFrom, IndexOf, Matches, NodenameEq;
    NodenameMatches(w, NodeTok(w, r), s);
  }

  lemma ChildSoughtStep(w: seq<byte>, parent: int, s: seq<byte>, was: int, depth: nat, r: int, d: int)
    requires Block(w) && OnNode(w, parent) && was >= 0 && ChildSought(w, parent, s, was, depth)
    requires !(depth == 1 && Matches(Toks(w)[NodeTok(w, was)].name, s))
    requires Reports(Toks(w), SeekNode(Toks(w), NodeTok(w, was) + 1, depth), r, d)
    ensures ChildSought(w, parent, s, r, d)
  {
    hide Walk, IsBlock, Toks, SeekNode, ChildFrom, IndexOf, Size, Matches;
    SeekChild(Toks(w), NodeTok(w, was) + 1, depth, s);
    SeekClose(Toks(w), NodeTok(w, was) + 1, depth);
    match SeekNode(Toks(w), NodeTok(w, was) + 1, depth)
    case Found(k, _) => IndexOfOff(Toks(w), k);
    case Left(_, _) =>
    case NoMore(_) =>
  }

  // ---------------------------------------------------------------- from a path to a node

  /** The offset of the first slash at or behind `p`, or the end. */
  function NextSlash(path: seq<byte>, p: nat): (q: nat)
    requires p <= |path|
    ensures p <= q <= |path| && SLASH !in path[p..q] && (q < |path| ==> path[q] == SLASH)
    decreases |path| - p
  {
    if p == |path| || path[p] == SLASH then p
    else
      var q := NextSlash(path, p + 1);
      assert path[p..q] == [path[p]] + path[p + 1..q];
      q
  }

  /** The non-empty names between the slashes of a path. */
  function Components(path: seq<byte>): (cs: seq<seq<byte>>)
    decreases |path|
  {
    if path == [] then []
    else if path[0] == SLASH then Components(path[1..])
    else
      var q := NextSlash(path, 0);
      [path[..q]] + Components(path[q..])
  }

  /** The node a list of names leads to, taking the first matching child at each step. */
  function Resolve(n: Node, cs: seq<seq<byte>>): (r: Option<seq<nat>>)
    ensures r.Some? ==> IsPath(n, r.value)
    decreases |cs|
  {
    if cs == [] then Some([])
    else match FirstMatch(n.children, cs[0])
      case None => None
      case Some(c) =>
        match Resolve(n.children[c], cs[1..])
        case None => None
        case Some(p) =>
          assert ([c] + p)[1..] == p;
          Some([c] + p)
  }

  /** What is still to be resolved below the node at `at`. */
  function ResolveFrom(t: Node, at: seq<nat>, cs: seq<seq<byte>>): (r: Option<seq<nat>>)
    requires IsPath(t, at)
    ensures r.Some? ==> IsPath(t, r.value)
  {
    match Resolve(Get(t, at), cs)
    case None => None
    case Some(p) =>
      PathJoin(t, at, p);
      Some(at + p)
  }

  lemma {:induction false} PathJoin(t: Node, at: seq<nat>, p: seq<nat>)
    requires IsPath(t, at) && IsPath(Get(t, at), p)
    ensures IsPath(t, at + p) && Get(t, at + p) == Get(Get(t, at), p)
    decreases |at|
  {
    if at == [] {
      assert at + p == p;
    } else {
      assert (at + p)[0] == at[0] && (at + p)[1..] == at[1..] + p;
      PathJoin(t.children[at[0]], at[1..], p);
    }
  }

  lemma ResolveStep(t: Node, at: seq<nat>, c: seq<byte>, cs: seq<seq<byte>>)
    requires IsPath(t, at)
    ensures match FirstMatch(Get(t, at).children, c)
            case None => ResolveFrom(t, at, [c] + cs) == None
            case Some(k) => IsPath(t, at + [k]) && ResolveFrom(t, at, [c] + cs) == ResolveFrom(t, at + [k], cs)
  {
    hide FirstMatch, Matches, Get, IsPath;
    assert ([c] + cs)[1..] == cs;
    match FirstMatch(Get(t, at).children, c)
    case None =>
    case Some(k) =>
      PathSnoc(t, at, k);
      match Resolve(Get(t, at).children[k], cs)
      case None =>
      case Some(p) => assert at + ([k] + p) == at + [k] + p;
  }

  lemma SelfMatch(name: seq<byte>)
    ensures Matches(name, name)
  {
  }

  /** Names are followed one after the other. */
  lemma {:induction false} ResolveConcat(n: Node, a: seq<seq<byte>>, b: seq<seq<byte>>)
    ensures match Resolve(n, a)
            case None => Resolve(n, a + b) == None
            case Some(p) => Resolve(n, a + b) == ResolveFrom(n, p, b)
    decreases |a|
  {
    hide FirstMatch, Matches;
    if a == [] {
      assert a + b == b && Get(n, []) == n;
      if Resolve(n, b).Some? {
        assert [] + Resolve(n, b).value == Resolve(n, b).value;
      }
    } else {
      assert (a + b)[0] == a[0] && (a + b)[1..] == a[1..] + b;
      var f := FirstMatch(n.children, a[0]);
      if f.Some? {
        ResolveConcat(n.children[f.value], a[1..], b);
        ResolveBelow(n, f.value, Resolve(n.children[f.value], a[1..]), b);
      }
    }
  }

  lemma ResolveBelow(n: Node, c: nat, p: Option<seq<nat>>, b: seq<seq<byte>>)
    requires c < |n.children| && (p.Some? ==> IsPath(n.children[c], p.value))
    ensures p.Some? ==>
              && IsPath(n, [c] + p.value)
              && match ResolveFrom(n.children[c], p.value, b)
                 case None => ResolveFrom(n, [c] + p.value, b) == None
                 case Some(r) => ResolveFrom(n, [c] + p.value, b) == Some([c] + r)
  {
    hide Resolve;
    if p.Some? {
      assert ([c] + p.value)[1..] == p.value;
      match Resolve(Get(n.children[c], p.value), b)
      case None =>
      case Some(r) => assert [c] + (p.value + r) == [c] + p.value + r;
    }
  }

  lemma ResolveDone(t: Node, at: seq<nat>)
    requires IsPath(t, at)
    ensures ResolveFrom(t, at, []) == Some(at)
  {
    assert at + [] == at;
  }

  lemma ComponentsStep(path: seq<byte>, p: nat)
    requires p < |path|
    ensures path[p] == SLASH ==> Components(path[p..]) == Components(path[p + 1..])
    ensures path[p] != SLASH ==>
              var q := NextSlash(path, p);
              p < q && Components(path[p..]) == [path[p..q]] + Components(path[q..])
  {
    hide Components, NextSlash;
    var rest := path[p..];
    ComponentsUnfold(rest);
    assert rest[1..] == path[p + 1..];
    if path[p] != SLASH {
      var q := NextSlash(path, p);
      NextSlashShift(path, p, p);
      assert rest[..q - p] == path[p..q] && rest[q - p..] == path[q..];
    }
  }

  lemma {:induction false} NextSlashShift(path: seq<byte>, a: nat, p: nat)
    requires a <= p <= |path|
    ensures NextSlash(path[a..], p - a) == NextSlash(path, p) - a
    decreases |path| - p
  {
    if p < |path| && path[p] != SLASH {
      NextSlashShift(path, a, p + 1);
    }
  }

  lemma ComponentsUnfold(path: seq<byte>)
    ensures path == [] ==> Components(path) == []
    ensures path != [] && path[0] == SLASH ==> Components(path) == Components(path[1..])
    ensures path != [] && path[0] != SLASH ==>
              var q := NextSlash(path, 0); q > 0 && Components(path) == [path[..q]] + Components(path[q..])
  {
  }

  /** A slash separates components. */
  lemma {:induction false} ComponentsSplit(a: seq<byte>, b: seq<byte>)
    ensures Components(a + [SLASH] + b) == Components(a) + Components(b)
    decreases |a|
  {
    hide Components, NextSlash;
    var s := a + [SLASH] + b;
    ComponentsUnfold(s);
    ComponentsUnfold(a);
    if a == [] {
      assert s[1..] == b;
    } else if a[0] == SLASH {
      assert s[1..] == a[1..] + [SLASH] + b;
      ComponentsSplit(a[1..], b);
    } else {
      var q := NextSlash(a, 0);
      SlashBefore(a, b, 0);
      assert s[..q] == a[..q] && s[q..] == a[q..] + [SLASH] + b;
      ComponentsSplit(a[q..], b);
      Assoc([a[..q]], Components(a[q..]), Components(b));
    }
  }

  lemma {:induction false} SlashBefore(a: seq<byte>, b: seq<byte>, p: nat)
    requires p <= |a|
    ensures NextSlash(a + [SLASH] + b, p) == NextSlash(a, p)
    decreases |a| - p
  {
    var s := a + [SLASH] + b;
    assert s[|a|] == SLASH && forall i | 0 <= i < |a| :: s[i] == a[i];
    if p < |a| && a[p] != SLASH {
      SlashBefore(a, b, p + 1);
    }
  }

  /** `off` is the offset of the node at `at`. */
  predicate OffsetIs(w: seq<byte>, strs: seq<byte>, t: Node, at: seq<nat>, off: int) {
    Denotes(w, strs, t) && IsPath(t, at) && off == NodeOffset(w, strs, t, at)
  }

  /** The root of a blob whose first tag is a begin tag is at offset 0. */
  lemma RootOffset(w: seq<byte>, strs: seq<byte>, t: Node)
    requires Denotes(w, strs, t) && OnNode(w, 0)
    ensures OffsetIs(w, strs, t, [], 0) && NodeTok(w, 0) == 0 && PathAt(w, strs, t, 0) == []
  {
    hide Walk, IsBlock, Toks, Flatten, NodeTok, PathTo;
    var ts := Toks(w);
    OffStart(ts);
    IndexOfOff(ts, 0);
    assert ts[..0] == [] && NodeTok(w, 0) == 0 by { NodeTokIs(w, 0, 0); }
    assert Meaning([], strs) == [];
    RawIndexUnique(ts, strs, 0);
    NodePathUnique(ts, strs, t, []);
  }

  lemma NodeTokIs(w: seq<byte>, off: int, i: nat)
    requires Block(w) && OnNode(w, off) && IndexOf(Toks(w), off) == Some(i)
    ensures NodeTok(w, off) == i
  {
  }

  /** One component further down. */
  lemma DownStep(w: seq<byte>, strs: seq<byte>, t: Node, at: seq<nat>, off: int, s: seq<byte>, cs: seq<seq<byte>>,
                 r: int)
    requires OffsetIs(w, strs, t, at, off) && OnNode(w, off)
    requires match ChildFrom(Toks(w), NodeTok(w, off) + 1, 0, s)
             case Some(k) => r == Off(Toks(w), k)
             case None => r == -ERR_NOTFOUND
    ensures match FirstMatch(Get(t, at).children, s)
            case None => r == -ERR_NOTFOUND && ResolveFrom(t, at, [s] + cs) == None
            case Some(c) => r >= 0 && OffsetIs(w, strs, t, at + [c], r)
                            && ResolveFrom(t, at, [s] + cs) == ResolveFrom(t, at + [c], cs)
  {
    hide Walk, IsBlock, Toks, Meaning, Flatten, IndexOf, Size, NodeIndex, IsPath, FirstMatch, ChildFrom, ResolveFrom,
         Matches, Get, NodeTok, OnNode, NextTag, Block;
    PathOffsets(w, strs, t, at);
    ChildPlace(w, strs, t, off, s);
    ResolveStep(t, at, s, cs);
  }

  lemma NodeAtStart(w: seq<byte>)
    requires Block(w)
    ensures IsNode(w, 0) <==> OnNode(w, 0)
  {
    hide Walk, Toks, Encodes, NextTag, Size;
    var ts := Toks(w);
    OffStart(ts);
    if ts == [] {
      NextTagAtEnd(w, ts);
    } else {
      IndexOfOff(ts, 0);
      TokenKind(w, 0);
    }
  }

  lemma PathStart(t: Node, path: seq<byte>)
    ensures path[0..] == path && IsPath(t, [])
    ensures Resolve(t, Components(path)) == ResolveFrom(t, [], Components(path[0..]))
  {
    hide Components, Resolve;
    assert path[0..] == path;
    match Resolve(t, Components(path))
    case None =>
    case Some(p) => assert [] + p == p;
  }

  lemma PathOver(t: Node, at: seq<nat>, path: seq<byte>)
    requires IsPath(t, at)
    ensures Components(path[|path|..]) == [] && ResolveFrom(t, at, Components(path[|path|..])) == Some(at)
  {
    assert path[|path|..] == [];
    ResolveDone(t, at);
  }

  /** Follows the rest of a path, from `p`, down from the node at `offset`. An error code given for the
      offset comes back; and without a node at offset 0 there is no way down from there. */
  method Descend(w: seq<byte>, strs: seq<byte>, path: seq<byte>, start: nat, from: int,
                 ghost t: Node, ghost at: seq<nat>)
      returns (r: int)
    requires Denotes(w, strs, t) && 0 !in path && start <= |path|
    requires from < 0 || OffsetIs(w, strs, t, at, from) || (from == 0 && !OnNode(w, 0))
    ensures from < 0 ==> r == from
    ensures OffsetIs(w, strs, t, at, from) ==>
              match ResolveFrom(t, at, Components(path[start..]))
              case Some(p) => r == NodeOffset(w, strs, t, p)
              case None => r == -ERR_NOTFOUND
    ensures from == 0 && !OnNode(w, 0) ==> r == if Components(path[start..]) == [] then 0 else -ERR_BADOFFSET
  {
    hide Walk, IsBlock, Toks, Meaning, Flatten, IndexOf, Size, NodeIndex, IsPath, FirstMatch, ChildFrom, Components,
         Resolve, ResolveFrom, NextSlash, Matches, Get, NodeTok, OnNode, NextTag, Block, Named, NodeOffset;
    var (p, offset) := (start, from);
    ghost var node := at;
    ghost var known := OffsetIs(w, strs, t, at, from);
    if known {
      OffsetNode(w, strs, t, at, from);
    }
    NodeAtStart(w);
    while p < |path|
      invariant start <= p <= |path|
      invariant known ==> IsPath(t, at) && IsPath(t, node) && OffsetIs(w, strs, t, node, offset)
                          && ResolveFrom(t, at, Components(path[start..]))
                             == ResolveFrom(t, node, Components(path[p..]))
      invariant !known ==> offset == from && Components(path[p..]) == Components(path[start..])
      decreases |path| - p
    {
      ghost var p0 := p;
      while p < |path| && path[p] == SLASH
        invariant p0 <= p <= |path| && Components(path[p..]) == Components(path[p0..])
      {
        ComponentsStep(path, p);
        p := p + 1;
      }
      if p == |path| {
        break;
      }
      ComponentsStep(path, p);
      var q := NextSlash(path, p);
      if known {
        OffsetNode(w, strs, t, node, offset);
      }
      var sub := SubnodeOffset(w, offset, path[p..q]);
      if known {
        DownStep(w, strs, t, node, offset, path[p..q], Components(path[q..]), sub);
      }
      if sub < 0 {
        return sub;
      }
      node := node + [FirstMatch(Get(t, node).children, path[p..q]).value];
      offset, p := sub, q;
    }
    if known {
      PathOver(t, node, path);
    } else {
      PathOver(t, [], path);
    }
    return offset;
  }

  lemma OffsetNode(w: seq<byte>, strs: seq<byte>, t: Node, at: seq<nat>, off: int)
    requires OffsetIs(w, strs, t, at, off)
    ensures IsPath(t, at) && OnNode(w, off) && IsNode(w, off)
  {
    hide Walk, IsBlock, Toks, Meaning, Flatten, IndexOf, Size, NodeIndex, IsPath, NextTag, Block;
    PathOffsets(w, strs, t, at);
  }
}
