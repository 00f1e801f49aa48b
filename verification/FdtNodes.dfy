/** Where the nodes of a tree stand in a token sequence that may hold padding tags. */
module FdtNodes {
  import opened Bytes
  import opened FdtFormat
  import opened FdtTree

  /** The index of the token that says event `k`. */
  function RawIndex(ts: seq<Token>, strs: seq<byte>, k: nat): (r: nat)
    requires k < |Meaning(ts, strs)|
    ensures r < |ts|
  {
    if EventsOf(ts[0], strs) == [] then 1 + RawIndex(ts[1..], strs, k)
    else if k == 0 then 0
    else 1 + RawIndex(ts[1..], strs, k - 1)
  }

  lemma {:induction false} RawIndexPrefix(ts: seq<Token>, strs: seq<byte>, k: nat)
    requires k < |Meaning(ts, strs)|
    ensures var r := RawIndex(ts, strs, k);
            |Meaning(ts[..r], strs)| == k && EventsOf(ts[r], strs) != []
  {
    hide EventsOf;
    var (r, hd) := (RawIndex(ts, strs, k), EventsOf(ts[0], strs));
    if r == 0 {
      assert ts[..r] == [];
    } else {
      OneEvent(ts[0], strs);
      RawIndexPrefix(ts[1..], strs, if hd == [] then k else k - 1);
      assert ts[..r][1..] == ts[1..][..r - 1];
    }
  }

  lemma OneEvent(t: Token, strs: seq<byte>)
    ensures |EventsOf(t, strs)| <= 1
  {
  }

  /** Cuts a sequence at the token that says event `k`. */
  lemma RawIndexCut(ts: seq<Token>, strs: seq<byte>, k: nat)
    requires k < |Meaning(ts, strs)|
    ensures var r := RawIndex(ts, strs, k);
            && Meaning(ts[..r], strs) == Meaning(ts, strs)[..k]
            && EventsOf(ts[r], strs) == [Meaning(ts, strs)[k]]
            && Meaning(ts[r + 1..], strs) == Meaning(ts, strs)[k + 1..]
  {
    hide EventsOf, Meaning, RawIndex;
    var r := RawIndex(ts, strs, k);
    RawIndexPrefix(ts, strs, k);
    MeaningAt(ts, r, strs);
    OneEvent(ts[r], strs);
  }

  /** No other token says as many events before it: the position of an event is unique. */
  lemma {:induction false} RawIndexUnique(ts: seq<Token>, strs: seq<byte>, i: nat)
    requires i < |ts| && EventsOf(ts[i], strs) != []
    ensures |Meaning(ts[..i], strs)| < |Meaning(ts, strs)|
    ensures RawIndex(ts, strs, |Meaning(ts[..i], strs)|) == i
  {
    hide EventsOf;
    if i == 0 {
      assert ts[..0] == [];
    } else {
      RawIndexUnique(ts[1..], strs, i - 1);
      assert ts[..i][1..] == ts[1..][..i - 1];
      OneEvent(ts[0], strs);
    }
  }

  // ---------------------------------------------------------------- nesting

  function Step(e: Event): int {
    match e
    case Open(_) => 1
    case Attr(_) => 0
    case Close => -1
  }

  /** How many more nodes a stretch opens than it closes. */
  function Net(es: seq<Event>): int {
    if es == [] then 0 else Step(es[0]) + Net(es[1..])
  }

  /** Entered at depth `d`, a stretch never leaves the node it started in. */
  predicate Stays(es: seq<Event>, d: int) {
    d >= 0 && (es == [] || Stays(es[1..], d + Step(es[0])))
  }

  lemma {:induction false} StaysConcat(a: seq<Event>, b: seq<Event>, d: int)
    ensures Net(a + b) == Net(a) + Net(b)
    ensures Stays(a + b, d) <==> Stays(a, d) && Stays(b, d + Net(a))
  {
    if a == [] {
      assert a + b == b;
    } else {
      assert (a + b)[1..] == a[1..] + b;
      StaysConcat(a[1..], b, d + Step(a[0]));
    }
  }

  lemma {:induction false} StaysProps(ps: seq<Property>, d: nat)
    ensures Net(FlattenProps(ps)) == 0 && Stays(FlattenProps(ps), d)
  {
    if ps != [] {
      StaysProps(ps[1..], d);
    }
  }

  /** What stands between the begin and end tags of a node. */
  function Inner(n: Node): (es: seq<Event>)
    ensures Flatten(n) == [Open(n.name)] + es + [Close]
  {
    FlattenProps(n.props) + FlattenAll(n.children)
  }

  /** A node's stretch is balanced. */
  lemma {:induction false} StaysNode(n: Node, d: nat)
    ensures Net(Flatten(n)) == 0 && Stays(Flatten(n), d)
    decreases n, 1
  {
    hide Flatten, Inner;
    StaysInner(n, d + 1);
    StaysConcat([Open(n.name)] + Inner(n), [Close], d);
    StaysConcat([Open(n.name)], Inner(n), d);
  }

  lemma {:induction false} StaysInner(n: Node, d: nat)
    ensures Net(Inner(n)) == 0 && Stays(Inner(n), d)
    decreases n, 0
  {
    StaysProps(n.props, d);
    StaysAll(n.children, d);
    StaysConcat(FlattenProps(n.props), FlattenAll(n.children), d);
  }

  lemma {:induction false} StaysAll(ns: seq<Node>, d: nat)
    ensures Net(FlattenAll(ns)) == 0 && Stays(FlattenAll(ns), d)
    decreases ns, 0
  {
    if ns != [] {
      StaysNode(ns[0], d);
      StaysAll(ns[1..], d);
      StaysConcat(Flatten(ns[0]), FlattenAll(ns[1..]), d);
    }
  }

  /** The index just past the end tag that closes the node entered `d` levels further out. */
  function CloseFrom(ts: seq<Token>, j: nat, d: nat): (r: Option<nat>)
    requires j <= |ts|
    ensures r.Some? ==> j < r.value <= |ts| && ts[r.value - 1].EndNode?
    decreases |ts| - j
  {
    if j == |ts| then None
    else match ts[j]
      case Begin(_) => CloseFrom(ts, j + 1, d + 1)
      case EndNode => if d == 0 then Some(j + 1) else CloseFrom(ts, j + 1, d - 1)
      case _ => CloseFrom(ts, j + 1, d)
  }

  function Level(t: Token): int {
    match t
    case Begin(_) => 1
    case EndNode => -1
    case _ => 0
  }

  lemma LevelOfToken(t: Token, strs: seq<byte>)
    ensures Net(EventsOf(t, strs)) == Level(t)
  {
    var es := EventsOf(t, strs);
    assert |es| == 1 ==> es[1..] == [];
  }

  lemma StaysAbove(es: seq<Event>, d: int)
    ensures Stays(es, d) ==> d >= 0
  {
  }

  /** One token moves the nesting level by its own step. */
  lemma StaysToken(ts: seq<Token>, strs: seq<byte>, j: nat, e: nat, d: int)
    requires j < e <= |ts|
    ensures Net(Meaning(ts[j..e], strs)) == Level(ts[j]) + Net(Meaning(ts[j + 1..e], strs))
    ensures Stays(Meaning(ts[j..e], strs), d) ==>
              d + Level(ts[j]) >= 0 && Stays(Meaning(ts[j + 1..e], strs), d + Level(ts[j]))
  {
    hide EventsOf, Net, Stays;
    assert ts[j..e][1..] == ts[j + 1..e];
    var (hd, tl) := (EventsOf(ts[j], strs), Meaning(ts[j + 1..e], strs));
    LevelOfToken(ts[j], strs);
    StaysAbove(tl, d + Level(ts[j]));
    StaysConcat(hd, tl, d);
  }

  lemma CloseStep(ts: seq<Token>, j: nat, d: nat)
    requires j < |ts| && d + Level(ts[j]) >= 0
    ensures CloseFrom(ts, j, d) == CloseFrom(ts, j + 1, d + Level(ts[j]))
  {
  }

  lemma CloseHere(ts: seq<Token>, j: nat)
    requires j < |ts| && ts[j].EndNode?
    ensures CloseFrom(ts, j, 0) == Some(j + 1)
  {
  }

  /** Searching for the end tag passes over any stretch that stays inside. */
  lemma {:induction false} CloseSkip(ts: seq<Token>, strs: seq<byte>, j: nat, e: nat, d: nat)
    requires j <= e <= |ts| && Stays(Meaning(ts[j..e], strs), d)
    ensures d + Net(Meaning(ts[j..e], strs)) >= 0
    ensures CloseFrom(ts, j, d) == CloseFrom(ts, e, d + Net(Meaning(ts[j..e], strs)))
    decreases e - j
  {
    hide CloseFrom, EventsOf;
    if j == e {
      assert ts[j..e] == [];
    } else {
      hide Meaning, Stays, Net;
      StaysToken(ts, strs, j, e, d);
      CloseStep(ts, j, d);
      CloseSkip(ts, strs, j + 1, e, d + Level(ts[j]));
    }
  }

  // ---------------------------------------------------------------- a node's tokens

  /** The index of the begin tag of the node at `path`. */
  function NodeIndex(ts: seq<Token>, strs: seq<byte>, t: Node, path: seq<nat>): (r: nat)
    requires IsPath(t, path) && Meaning(ts, strs) == Flatten(t)
    ensures r < |ts|
  {
    FlattenAt(t, path);
    RawIndex(ts, strs, |Before(t, path)|)
  }

  /** The index just past the end tag of the node whose begin tag is at `i`. */
  function NodeEnd(ts: seq<Token>, i: nat): Option<nat>
    requires i < |ts|
  {
    CloseFrom(ts, i + 1, 0)
  }

  /** Tokens `i..e` are node `n`, from its begin tag to the end tag that closes it, and say exactly
      that node; what stands before and behind says `b` and `a`. */
  predicate Spans(ts: seq<Token>, strs: seq<byte>, i: nat, e: nat,
                  b: seq<Event>, n: Node, a: seq<Event>) {
    && i + 1 < e <= |ts|
    && ts[i] == Begin(n.name)
    && NodeEnd(ts, i) == Some(e)
    && Meaning(ts[..i], strs) == b
    && Meaning(ts[i..e], strs) == Flatten(n)
    && Meaning(ts[e..], strs) == a
  }

  /** Every node of the tree occupies one contiguous run of tokens. */
  lemma NodeSpan(ts: seq<Token>, strs: seq<byte>, t: Node, path: seq<nat>)
    requires IsPath(t, path) && Meaning(ts, strs) == Flatten(t)
    ensures var i := NodeIndex(ts, strs, t, path);
            && NodeEnd(ts, i).Some?
            && Spans(ts, strs, i, NodeEnd(ts, i).value, Before(t, path), Get(t, path), After(t, path))
  {
    hide Flatten, Inner, Before, After, Meaning, RawIndex, CloseFrom, NodeIndex;
    var (i, n) := (NodeIndex(ts, strs, t, path), Get(t, path));
    NodeStart(ts, strs, t, path);
    InnerSpan(ts, strs, i + 1, n, After(t, path));
    var e := NodeEnd(ts, i).value;
    assert ts[..e][i..] == ts[i..e] && ts[..e][i + 1..] == ts[i + 1..e];
    MeaningAt(ts[..e], i, strs);
    assert Meaning(ts[i..e], strs) == [Open(n.name)] + (Inner(n) + [Close]);
  }

  lemma NodeStart(ts: seq<Token>, strs: seq<byte>, t: Node, path: seq<nat>)
    requires IsPath(t, path) && Meaning(ts, strs) == Flatten(t)
    ensures var i := NodeIndex(ts, strs, t, path);
            && ts[i] == Begin(Get(t, path).name)
            && Meaning(ts[..i], strs) == Before(t, path)
            && Meaning(ts[i + 1..], strs) == Inner(Get(t, path)) + ([Close] + After(t, path))
  {
    hide Flatten, Inner, Before, After, Meaning, RawIndex;
    FlattenAt(t, path);
    var (b, n, a) := (Before(t, path), Get(t, path), After(t, path));
    RawIndexCut(ts, strs, |b|);
    assert Flatten(t) == b + ([Open(n.name)] + (Inner(n) + ([Close] + a)));
  }

  /** Behind a begin tag: the search for the end tag stops where the node's inside has been said. */
  lemma InnerSpan(ts: seq<Token>, strs: seq<byte>, j: nat, n: Node, rest: seq<Event>)
    requires j <= |ts|
    requires Meaning(ts[j..], strs) == Inner(n) + ([Close] + rest)
    ensures CloseFrom(ts, j, 0).Some?
    ensures var e := CloseFrom(ts, j, 0).value;
            && Meaning(ts[j..e], strs) == Inner(n) + [Close]
            && Meaning(ts[e..], strs) == rest
  {
    hide Flatten, Inner, Meaning, RawIndex, Net, Stays, CloseFrom;
    var (sub, k) := (ts[j..], |Inner(n)|);
    var r := RawIndex(sub, strs, k);
    RawIndexCut(sub, strs, k);
    assert Meaning(sub[..r], strs) == Inner(n) && sub[r].EndNode?;
    MeaningAt(sub, r, strs);
    StaysInner(n, 0);
    InnerClose(ts, strs, j, j + r);
    Slices(ts, j, r + 1);
  }

  lemma InnerClose(ts: seq<Token>, strs: seq<byte>, j: nat, e: nat)
    requires j <= e < |ts| && ts[e].EndNode?
    requires Stays(Meaning(ts[j..][..e - j], strs), 0) && Net(Meaning(ts[j..][..e - j], strs)) == 0
    ensures CloseFrom(ts, j, 0) == Some(e + 1)
  {
    hide Meaning, Net, Stays, CloseFrom;
    Slices(ts, j, e - j);
    CloseSkip(ts, strs, j, e, 0);
    CloseHere(ts, e);
  }

  // ---------------------------------------------------------------- from a begin tag to its node

  lemma {:induction false} PropsAreAttrs(ps: seq<Property>, k: nat)
    requires k < |ps|
    ensures FlattenProps(ps)[k] == Attr(ps[k])
  {
    if k > 0 {
      PropsAreAttrs(ps[1..], k - 1);
    }
  }

  /** An opening event of a node is its own or one of its children's. */
  lemma OpenInside(n: Node, k: nat)
    requires 0 < k < |Flatten(n)| && Flatten(n)[k].Open?
    ensures var r := k - 1 - |n.props|;
            0 <= r < |FlattenAll(n.children)| && FlattenAll(n.children)[r] == Flatten(n)[k]
  {
    var es := FlattenProps(n.props);
    assert Flatten(n) == [Open(n.name)] + es + FlattenAll(n.children) + [Close];
    if k - 1 < |n.props| {
      PropsAreAttrs(n.props, k - 1);
    }
  }

  /** The path of the node whose begin tag is event `k`. */
  function PathTo(n: Node, k: nat): (path: seq<nat>)
    requires k < |Flatten(n)| && Flatten(n)[k].Open?
    ensures IsPath(n, path) && |Before(n, path)| == k
    decreases n, 1
  {
    if k == 0 then []
    else
      OpenInside(n, k);
      var p := PathIn(n.children, k - 1 - |n.props|);
      BeforeLength(n, p);
      p
  }

  lemma BeforeLength(n: Node, p: seq<nat>)
    requires p != [] && p[0] < |n.children| && IsPath(n.children[p[0]], p[1..])
    ensures IsPath(n, p)
    ensures |Before(n, p)| == 1 + |n.props| + |FlattenAll(n.children[..p[0]])| + |Before(n.children[p[0]], p[1..])|
  {
    hide FlattenProps, FlattenAll;
  }

  function PathIn(ns: seq<Node>, k: nat): (p: seq<nat>)
    requires k < |FlattenAll(ns)| && FlattenAll(ns)[k].Open?
    ensures p != [] && p[0] < |ns| && IsPath(ns[p[0]], p[1..])
    ensures k == |FlattenAll(ns[..p[0]])| + |Before(ns[p[0]], p[1..])|
    decreases ns, 0
  {
    var m := |Flatten(ns[0])|;
    if k < m then
      var p := PathTo(ns[0], k);
      assert ([0] + p)[1..] == p && ns[..0] == [];
      [0] + p
    else
      var p := PathIn(ns[1..], k - m);
      assert ([p[0] + 1] + p[1..])[1..] == p[1..] && ns[..p[0] + 1][1..] == ns[1..][..p[0]];
      [p[0] + 1] + p[1..]
  }

  /** The path of the node whose begin tag is token `i`. */
  function NodePath(ts: seq<Token>, strs: seq<byte>, t: Node, i: nat): (path: seq<nat>)
    requires Meaning(ts, strs) == Flatten(t) && i < |ts| && ts[i].Begin?
    ensures IsPath(t, path) && NodeIndex(ts, strs, t, path) == i
  {
    RawIndexUnique(ts, strs, i);
    RawIndexCut(ts, strs, |Meaning(ts[..i], strs)|);
    PathTo(t, |Meaning(ts[..i], strs)|)
  }

  lemma BeforeShort(n: Node, p: seq<nat>)
    requires IsPath(n, p)
    ensures |Before(n, p)| < |Flatten(n)|
  {
    hide Flatten, Before, After;
    FlattenAt(n, p);
  }

  lemma HeadLonger(n: Node, j: nat, k: nat)
    requires j < k < |n.children|
    ensures |Head(n, j)| + |Flatten(n.children[j])| <= |Head(n, k)|
  {
    hide Flatten, FlattenAll, FlattenProps;
    var cs := n.children;
    assert cs[..k] == cs[..j] + [cs[j]] + cs[j + 1..k];
    FlattenAllConcat(cs[..j] + [cs[j]], cs[j + 1..k]);
    FlattenAllConcat(cs[..j], [cs[j]]);
    FlattenOne(cs[j]);
  }

  /** Different nodes start at different events. */
  lemma {:induction false} BeforeInjective(n: Node, p: seq<nat>, q: seq<nat>)
    requires IsPath(n, p) && IsPath(n, q) && |Before(n, p)| == |Before(n, q)|
    ensures p == q
    decreases |p|
  {
    hide Flatten, FlattenAll, FlattenProps, Head;
    if p == [] || q == [] {
      BeforeNonEmpty(n, p);
      BeforeNonEmpty(n, q);
    } else {
      var (j, k) := (p[0], q[0]);
      BeforeShort(n.children[j], p[1..]);
      BeforeShort(n.children[k], q[1..]);
      if j < k {
        HeadLonger(n, j, k);
      } else if k < j {
        HeadLonger(n, k, j);
      } else {
        BeforeInjective(n.children[j], p[1..], q[1..]);
      }
    }
  }

  lemma BeforeNonEmpty(n: Node, p: seq<nat>)
    requires IsPath(n, p)
    ensures p != [] ==> |Before(n, p)| > 0
    ensures p == [] ==> Before(n, p) == []
  {
  }

  /** The path of a begin tag is the path it was reached by. */
  lemma NodePathUnique(ts: seq<Token>, strs: seq<byte>, t: Node, path: seq<nat>)
    requires Meaning(ts, strs) == Flatten(t) && IsPath(t, path)
    ensures ts[NodeIndex(ts, strs, t, path)].Begin?
    ensures NodePath(ts, strs, t, NodeIndex(ts, strs, t, path)) == path
  {
    hide Meaning, Flatten, Before, Inner, RawIndex, PathTo, IsPath, Get;
    var i := NodeIndex(ts, strs, t, path);
    NodeStart(ts, strs, t, path);
    RawIndexUnique(ts, strs, i);
    var p := NodePath(ts, strs, t, i);
    NodeStart(ts, strs, t, p);
    BeforeInjective(t, p, path);
  }

  /** An edited node is found again where it was. */
  lemma {:induction false} PutAt(n: Node, path: seq<nat>, m: Node)
    requires IsPath(n, path)
    ensures IsPath(Put(n, path, m), path) && Get(Put(n, path, m), path) == m
    ensures Before(Put(n, path, m), path) == Before(n, path)
    decreases |path|
  {
    hide FlattenAll, FlattenProps;
    if path != [] {
      var (k, c) := (path[0], n.children[path[0]]);
      PutAt(c, path[1..], m);
      assert n.children[k := Put(c, path[1..], m)][..k] == n.children[..k];
    }
  }
}
