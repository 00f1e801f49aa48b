/** The device tree a blob stands for, its linear form, and nodes addressed by child indices. */
module FdtTree {
  import opened Bytes
  import opened FdtFormat

  datatype Property = Property(name: seq<byte>, value: seq<byte>)

  datatype Node = Node(name: seq<byte>, props: seq<Property>, children: seq<Node>)

  /** A token with its property name looked up and padding tags dropped. */
  datatype Event = Open(name: seq<byte>) | Attr(prop: Property) | Close

  // ---------------------------------------------------------------- tokens to events

  function EventsOf(t: Token, strs: seq<byte>): seq<Event> {
    match t
    case Begin(name) => [Open(name)]
    case Prop(nameoff, value) =>
      (match CStr(strs, nameoff)
       case Some(name) => [Attr(Property(name, value))]
       case None => [])
    case EndNode => [Close]
    case Nop => []
  }

  /** What a token sequence says, read against a strings block. */
  function Meaning(ts: seq<Token>, strs: seq<byte>): seq<Event> {
    if ts == [] then [] else EventsOf(ts[0], strs) + Meaning(ts[1..], strs)
  }

  /** Every property name is found in the strings block. */
  predicate Named(ts: seq<Token>, strs: seq<byte>) {
    forall i | 0 <= i < |ts| && ts[i].Prop? :: CStr(strs, ts[i].nameoff).Some?
  }

  lemma {:induction false} MeaningConcat(a: seq<Token>, b: seq<Token>, strs: seq<byte>)
    ensures Meaning(a + b, strs) == Meaning(a, strs) + Meaning(b, strs)
  {
    if a == [] {
      assert a + b == b;
    } else {
      assert (a + b)[1..] == a[1..] + b;
      MeaningConcat(a[1..], b, strs);
    }
  }

  /** The meaning of a sequence, seen from one of its tokens. */
  lemma MeaningAt(ts: seq<Token>, i: nat, strs: seq<byte>)
    requires i < |ts|
    ensures Meaning(ts, strs)
            == Meaning(ts[..i], strs) + EventsOf(ts[i], strs) + Meaning(ts[i + 1..], strs)
    ensures Meaning(ts[i..], strs) == EventsOf(ts[i], strs) + Meaning(ts[i + 1..], strs)
    ensures Meaning(ts[..i + 1], strs) == Meaning(ts[..i], strs) + EventsOf(ts[i], strs)
  {
    hide EventsOf;
    assert ts == ts[..i] + ts[i..] && ts[i..][1..] == ts[i + 1..] && ts[..i + 1] == ts[..i] + [ts[i]];
    assert Meaning([ts[i]], strs) == EventsOf(ts[i], strs);
    MeaningConcat(ts[..i], ts[i..], strs);
    MeaningConcat(ts[..i], [ts[i]], strs);
  }

  lemma MeaningFrom(ts: seq<Token>, j: nat, k: nat, strs: seq<byte>)
    requires j <= k < |ts|
    ensures Meaning(ts[j..], strs)
            == Meaning(ts[j..k], strs) + (EventsOf(ts[k], strs) + Meaning(ts[k + 1..], strs))
  {
    hide EventsOf, Meaning;
    Slices(ts, j, k - j);
    Slices(ts, j, k - j + 1);
    MeaningAt(ts[j..], k - j, strs);
  }

  /** Appending to the strings block, or putting bytes before it, changes no meaning. */
  lemma {:induction false} MeaningExtend(ts: seq<Token>, strs: seq<byte>, more: seq<byte>)
    requires Named(ts, strs)
    ensures Named(ts, strs + more) && Meaning(ts, strs + more) == Meaning(ts, strs)
  {
    if ts != [] {
      forall i | 0 <= i < |ts| && ts[i].Prop?
        ensures CStr(strs + more, ts[i].nameoff) == CStr(strs, ts[i].nameoff)
      {
        CStrExtend([], strs, more, ts[i].nameoff);
        assert [] + strs + more == strs + more;
      }
      MeaningExtend(ts[1..], strs, more);
    }
  }

  // ---------------------------------------------------------------- trees to events

  function FlattenProps(ps: seq<Property>): (es: seq<Event>)
    ensures |es| == |ps|
  {
    if ps == [] then [] else [Attr(ps[0])] + FlattenProps(ps[1..])
  }

  function Flatten(n: Node): (es: seq<Event>)
    ensures |es| >= 2 && es[0] == Open(n.name)
    decreases n, 1
  {
    [Open(n.name)] + FlattenProps(n.props) + FlattenAll(n.children) + [Close]
  }

  function FlattenAll(ns: seq<Node>): (es: seq<Event>)
    ensures ns != [] ==> es != [] && es[0].Open?
    decreases ns, 0
  {
    if ns == [] then [] else Flatten(ns[0]) + FlattenAll(ns[1..])
  }

  lemma NothingSaid(strs: seq<byte>)
    ensures Meaning([], strs) == [] && FlattenProps([]) == [] && FlattenAll([]) == []
  {
  }

  lemma {:induction false} FlattenPropsConcat(a: seq<Property>, b: seq<Property>)
    ensures FlattenProps(a + b) == FlattenProps(a) + FlattenProps(b)
  {
    if a == [] {
      assert a + b == b;
    } else {
      assert (a + b)[1..] == a[1..] + b;
      FlattenPropsConcat(a[1..], b);
    }
  }

  lemma {:induction false} FlattenAllConcat(a: seq<Node>, b: seq<Node>)
    ensures FlattenAll(a + b) == FlattenAll(a) + FlattenAll(b)
  {
    if a == [] {
      assert a + b == b;
    } else {
      assert (a + b)[1..] == a[1..] + b;
      FlattenAllConcat(a[1..], b);
    }
  }

  // ---------------------------------------------------------------- events to trees

  function ParseProps(es: seq<Event>): (r: (seq<Property>, seq<Event>))
    ensures es == FlattenProps(r.0) + r.1
    ensures r.1 == [] || !r.1[0].Attr?
  {
    if es == [] || !es[0].Attr? then ([], es)
    else
      var (ps, rest) := ParseProps(es[1..]);
      assert ([es[0].prop] + ps)[1..] == ps;
      ([es[0].prop] + ps, rest)
  }

  function ParseNode(es: seq<Event>): (r: Option<(Node, seq<Event>)>)
    ensures r.Some? ==> es == Flatten(r.value.0) + r.value.1
    decreases |es|, 0
  {
    if es == [] || !es[0].Open? then None
    else
      var (ps, es1) := ParseProps(es[1..]);
      match ParseNodes(es1)
      case None => None
      case Some((ns, es2)) =>
        if es2 == [] || !es2[0].Close? then None
        else
          NodeParsed(es, ps, es1, ns, es2);
          Some((Node(es[0].name, ps, ns), es2[1..]))
  }

  lemma NodeParsed(es: seq<Event>, ps: seq<Property>, es1: seq<Event>, ns: seq<Node>, es2: seq<Event>)
    requires es != [] && es[0].Open? && es[1..] == FlattenProps(ps) + es1
    requires es1 == FlattenAll(ns) + es2 && es2 != [] && es2[0].Close?
    ensures es == Flatten(Node(es[0].name, ps, ns)) + es2[1..]
  {
    hide FlattenProps, FlattenAll;
    assert es == [es[0]] + (FlattenProps(ps) + (FlattenAll(ns) + ([Close] + es2[1..])));
  }

  function ParseNodes(es: seq<Event>): (r: Option<(seq<Node>, seq<Event>)>)
    ensures r.Some? ==> es == FlattenAll(r.value.0) + r.value.1
    decreases |es|, 1
  {
    if es == [] || !es[0].Open? then Some(([], es))
    else match ParseNode(es)
      case None => None
      case Some((n, es1)) =>
        match ParseNodes(es1)
        case None => None
        case Some((ns, es2)) =>
          assert ([n] + ns)[1..] == ns;
          assert es == Flatten(n) + (FlattenAll(ns) + es2);
          Some(([n] + ns, es2))
  }

  /** The one tree an event sequence describes. */
  function Parse(es: seq<Event>): (r: Option<Node>)
    ensures r.Some? ==> es == Flatten(r.value)
  {
    match ParseNode(es)
    case Some((n, rest)) => if rest == [] then Some(n) else None
    case None => None
  }

  lemma PropsFirst(ps: seq<Property>, rest: seq<Event>)
    ensures ps == [] ==> FlattenProps(ps) + rest == rest
    ensures ps != [] ==> (FlattenProps(ps) + rest)[0] == Attr(ps[0])
                         && (FlattenProps(ps) + rest)[1..] == FlattenProps(ps[1..]) + rest
  {
    hide FlattenProps;
    PropsUnfold(ps);
    if ps == [] {
      assert [] + rest == rest;
    } else {
      ConsConcat(Attr(ps[0]), FlattenProps(ps[1..]), rest);
    }
  }

  lemma PropsUnfold(ps: seq<Property>)
    ensures FlattenProps(ps) == if ps == [] then [] else [Attr(ps[0])] + FlattenProps(ps[1..])
  {
  }

  lemma {:induction false} ParsePropsOf(ps: seq<Property>, rest: seq<Event>)
    requires rest == [] || !rest[0].Attr?
    ensures ParseProps(FlattenProps(ps) + rest) == (ps, rest)
  {
    hide FlattenProps;
    PropsFirst(ps, rest);
    if ps != [] {
      ParsePropsOf(ps[1..], rest);
      assert ps == [ps[0]] + ps[1..];
    }
  }

  lemma {:induction false} ParseNodeOf(n: Node, rest: seq<Event>)
    ensures ParseNode(Flatten(n) + rest) == Some((n, rest))
    decreases n, 1
  {
    var es := Flatten(n) + rest;
    var tail := [Close] + rest;
    var mid := FlattenAll(n.children) + tail;
    assert es == [Open(n.name)] + (FlattenProps(n.props) + mid);
    assert es[1..] == FlattenProps(n.props) + mid;
    ParsePropsOf(n.props, mid);
    ParseNodesOf(n.children, tail);
    assert tail[1..] == rest;
  }

  lemma {:induction false} ParseNodesOf(ns: seq<Node>, rest: seq<Event>)
    requires rest == [] || !rest[0].Open?
    ensures ParseNodes(FlattenAll(ns) + rest) == Some((ns, rest))
    decreases ns, 0
  {
    hide Flatten, ParseNode;
    if ns == [] {
      assert FlattenAll(ns) + rest == rest;
    } else {
      var es1 := FlattenAll(ns[1..]) + rest;
      Assoc(Flatten(ns[0]), FlattenAll(ns[1..]), rest);
      ParseNodeOf(ns[0], es1);
      ParseNodesOf(ns[1..], rest);
      assert ns == [ns[0]] + ns[1..];
    }
  }

  /** Unique readability: a tree and its linear form determine each other. */
  lemma ParseIff(es: seq<Event>, n: Node)
    ensures Parse(es) == Some(n) <==> es == Flatten(n)
  {
    if es == Flatten(n) {
      ParseNodeOf(n, []);
      assert Flatten(n) + [] == Flatten(n);
    }
  }

  // ---------------------------------------------------------------- nodes inside a tree

  /** `path` lists child indices from the root. */
  predicate IsPath(n: Node, path: seq<nat>) {
    path == [] || (path[0] < |n.children| && IsPath(n.children[path[0]], path[1..]))
  }

  function Get(n: Node, path: seq<nat>): Node
    requires IsPath(n, path)
  {
    if path == [] then n else Get(n.children[path[0]], path[1..])
  }

  /** The tree with the node at `path` replaced. */
  function Put(n: Node, path: seq<nat>, m: Node): (r: Node)
    requires IsPath(n, path)
    decreases |path|
  {
    if path == [] then m
    else n.(children := n.children[path[0] := Put(n.children[path[0]], path[1..], m)])
  }

  /** The tree without the node at `path`. */
  function Prune(n: Node, path: seq<nat>): (r: Node)
    requires IsPath(n, path) && path != []
    decreases |path|
  {
    var k := path[0];
    if |path| == 1 then n.(children := n.children[..k] + n.children[k + 1..])
    else n.(children := n.children[k := Prune(n.children[k], path[1..])])
  }

  /** The events of a node up to child `k`. */
  function Head(n: Node, k: nat): seq<Event>
    requires k < |n.children|
  {
    [Open(n.name)] + FlattenProps(n.props) + FlattenAll(n.children[..k])
  }

  /** The events of a node behind child `k`. */
  function Tail(n: Node, k: nat): seq<Event>
    requires k < |n.children|
  {
    FlattenAll(n.children[k + 1..]) + [Close]
  }

  /** The events in front of the node at `path`. */
  function Before(n: Node, path: seq<nat>): seq<Event>
    requires IsPath(n, path)
    decreases |path|
  {
    if path == [] then [] else Head(n, path[0]) + Before(n.children[path[0]], path[1..])
  }

  /** The events behind the node at `path`. */
  function After(n: Node, path: seq<nat>): seq<Event>
    requires IsPath(n, path)
    decreases |path|
  {
    if path == [] then [] else After(n.children[path[0]], path[1..]) + Tail(n, path[0])
  }

  /** A node with child `k` exchanged for a sequence of nodes. */
  lemma FlattenSwap(n: Node, k: nat, mid: seq<Node>)
    requires k < |n.children|
    ensures Flatten(n.(children := n.children[..k] + mid + n.children[k + 1..]))
            == Head(n, k) + FlattenAll(mid) + Tail(n, k)
  {
    var cs := n.children;
    FlattenAllConcat(cs[..k] + mid, cs[k + 1..]);
    FlattenAllConcat(cs[..k], mid);
  }

  lemma FlattenOne(c: Node)
    ensures FlattenAll([c]) == Flatten(c)
  {
  }

  lemma FlattenSwapOne(n: Node, k: nat, c: Node)
    requires k < |n.children|
    ensures Flatten(n.(children := n.children[k := c])) == Head(n, k) + Flatten(c) + Tail(n, k)
  {
    hide Flatten, FlattenAll, Head, Tail;
    assert n.children[k := c] == n.children[..k] + [c] + n.children[k + 1..];
    FlattenOne(c);
    FlattenSwap(n, k, [c]);
  }

  /** Replacing a node replaces its stretch of the linear form and nothing else. */
  lemma {:induction false} FlattenPut(n: Node, path: seq<nat>, m: Node)
    requires IsPath(n, path)
    ensures Flatten(Put(n, path, m)) == Before(n, path) + Flatten(m) + After(n, path)
    decreases |path|
  {
    hide Flatten, Head, Tail;
    if path == [] {
      assert [] + Flatten(m) + [] == Flatten(m);
    } else {
      var c := n.children[path[0]];
      FlattenPut(c, path[1..], m);
      FlattenSwapOne(n, path[0], Put(c, path[1..], m));
    }
  }

  lemma {:induction false} PutGet(n: Node, path: seq<nat>)
    requires IsPath(n, path)
    ensures Put(n, path, Get(n, path)) == n
    decreases |path|
  {
    if path != [] {
      PutGet(n.children[path[0]], path[1..]);
    }
  }

  /** The linear form of a tree, seen from one of its nodes. */
  lemma FlattenAt(n: Node, path: seq<nat>)
    requires IsPath(n, path)
    ensures Flatten(n) == Before(n, path) + Flatten(Get(n, path)) + After(n, path)
  {
    hide Flatten, Before, After;
    PutGet(n, path);
    FlattenPut(n, path, Get(n, path));
  }

  /** Pruning a node cuts its stretch out of the linear form and nothing else. */
  lemma {:induction false} FlattenPrune(n: Node, path: seq<nat>)
    requires IsPath(n, path) && path != []
    ensures Flatten(Prune(n, path)) == Before(n, path) + After(n, path)
    decreases |path|
  {
    hide Flatten, Head, Tail;
    var k := path[0];
    if |path| == 1 {
      assert path[1..] == [] && n.children[..k] + [] + n.children[k + 1..] == n.children[..k] + n.children[k + 1..];
      FlattenSwap(n, k, []);
    } else {
      FlattenPrune(n.children[k], path[1..]);
      FlattenSwapOne(n, k, Prune(n.children[k], path[1..]));
    }
  }
}
