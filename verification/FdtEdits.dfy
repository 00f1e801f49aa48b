/** What an edit of the token sequence does to the tree it stands for. */
module FdtEdits {
  import opened Bytes
  import opened FdtFormat
  import opened FdtTree
  import opened FdtNodes
  import opened FdtProps

  /** The meaning of a sequence with a run of tokens exchanged. */
  lemma MeaningSplice(ts: seq<Token>, i: nat, us: seq<Token>, e: nat, strs: seq<byte>)
    requires i <= e <= |ts|
    ensures Meaning(ts[..i] + us + ts[e..], strs)
            == Meaning(ts[..i], strs) + Meaning(us, strs) + Meaning(ts[e..], strs)
  {
    MeaningConcat(ts[..i] + us, ts[e..], strs);
    MeaningConcat(ts[..i], us, strs);
  }

  /** What follows the properties of the node at `path`. */
  function Rest(t: Node, path: seq<nat>): seq<Event>
    requires IsPath(t, path)
  {
    FlattenAll(Get(t, path).children) + ([Close] + After(t, path))
  }

  lemma FlattenNode(n: Node)
    ensures Flatten(n) == [Open(n.name)] + (FlattenProps(n.props) + (FlattenAll(n.children) + [Close]))
  {
  }

  lemma FlattenWithProps(n: Node, a: seq<Property>, mid: seq<Property>, b: seq<Property>)
    ensures Flatten(n.(props := a + mid + b))
            == [Open(n.name)] + (FlattenProps(a) + (FlattenProps(mid) + (FlattenProps(b)
               + (FlattenAll(n.children) + [Close]))))
  {
    hide Flatten, FlattenProps, FlattenAll;
    FlattenNode(n.(props := a + mid + b));
    FlattenPropsConcat(a + mid, b);
    FlattenPropsConcat(a, mid);
  }

  lemma AssocPut(b: seq<Event>, o: seq<Event>, p: seq<Event>, m: seq<Event>, q: seq<Event>,
                 c: seq<Event>, x: seq<Event>, a: seq<Event>)
    ensures b + (o + (p + (m + (q + (c + x))))) + a == (b + o + p) + m + (q + (c + (x + a)))
  {
  }

  /** Where the properties of a node start among the tokens. */
  lemma PropsStart(ts: seq<Token>, strs: seq<byte>, t: Node, path: seq<nat>)
    requires IsPath(t, path) && Meaning(ts, strs) == Flatten(t)
    ensures var (i, n) := (NodeIndex(ts, strs, t, path), Get(t, path));
            && ts[i] == Begin(n.name)
            && Meaning(ts[..i + 1], strs) == Before(t, path) + [Open(n.name)]
            && Meaning(ts[i + 1..], strs) == FlattenProps(n.props) + Rest(t, path)
  {
    hide Meaning, Flatten, Inner, Rest, FlattenProps, FlattenAll, After, Before, NodeIndex, IsPath, Get;
    var (i, n) := (NodeIndex(ts, strs, t, path), Get(t, path));
    NodeStart(ts, strs, t, path);
    MeaningAt(ts, i, strs);
    InnerRest(t, path);
  }

  lemma InnerRest(t: Node, path: seq<nat>)
    requires IsPath(t, path)
    ensures Inner(Get(t, path)) + ([Close] + After(t, path))
            == FlattenProps(Get(t, path).props) + Rest(t, path)
  {
  }

  /** Exchanging tokens among a node's properties changes that node's properties and nothing else. */
  lemma PropEdit(ts: seq<Token>, strs: seq<byte>, t: Node, path: seq<nat>, j: nat, us: seq<Token>, k: nat,
                 a: seq<Property>, mid: seq<Property>, b: seq<Property>)
    requires IsPath(t, path) && Meaning(ts, strs) == Flatten(t)
    requires NodeIndex(ts, strs, t, path) < j <= k <= |ts|
    requires Meaning(ts[NodeIndex(ts, strs, t, path) + 1..j], strs) == FlattenProps(a)
    requires Meaning(us, strs) == FlattenProps(mid)
    requires Meaning(ts[k..], strs) == FlattenProps(b) + Rest(t, path)
    ensures Meaning(ts[..j] + us + ts[k..], strs)
            == Flatten(Put(t, path, Get(t, path).(props := a + mid + b)))
  {
    hide Meaning, Flatten, FlattenProps, FlattenAll, After, Before, NodeIndex, IsPath, Get, Put;
    var (i, n) := (NodeIndex(ts, strs, t, path), Get(t, path));
    PropsStart(ts, strs, t, path);
    assert ts[..j] == ts[..i + 1] + ts[i + 1..j];
    MeaningConcat(ts[..i + 1], ts[i + 1..j], strs);
    MeaningSplice(ts, j, us, k, strs);
    FlattenPut(t, path, n.(props := a + mid + b));
    FlattenWithProps(n, a, mid, b);
    AssocPut(Before(t, path), [Open(n.name)], FlattenProps(a), FlattenProps(mid), FlattenProps(b),
             FlattenAll(n.children), [Close], After(t, path));
  }

  // ---------------------------------------------------------------- properties

  /** The tree after a property of the node at `path` was set. */
  function WithProp(t: Node, path: seq<nat>, name: seq<byte>, value: seq<byte>): (r: Node)
    requires IsPath(t, path)
  {
    Put(t, path, Get(t, path).(props := SetIn(Get(t, path).props, name, value)))
  }

  /** The tree after a property of the node at `path` was removed. */
  function WithoutProp(t: Node, path: seq<nat>, name: seq<byte>): (r: Node)
    requires IsPath(t, path)
  {
    Put(t, path, Get(t, path).(props := DeleteIn(Get(t, path).props, name)))
  }

  /** The token of a property of the node at `path`. */
  function PropIndex(ts: seq<Token>, strs: seq<byte>, t: Node, path: seq<nat>, name: seq<byte>): Option<nat>
    requires IsPath(t, path) && Meaning(ts, strs) == Flatten(t)
  {
    PropFrom(ts, NodeIndex(ts, strs, t, path) + 1, strs, name)
  }

  /** Token `k` is property `q` of the node at `path`, between its neighbours. */
  predicate PropPlace(ts: seq<Token>, strs: seq<byte>, t: Node, path: seq<nat>, k: nat, q: nat)
    requires IsPath(t, path) && Meaning(ts, strs) == Flatten(t)
  {
    var (i, ps) := (NodeIndex(ts, strs, t, path), Get(t, path).props);
    && i < k < |ts| && q < |ps| && ts[k].Prop?
    && Meaning(ts[i + 1..k], strs) == FlattenProps(ps[..q])
    && EventsOf(ts[k], strs) == [Attr(ps[q])]
    && Meaning(ts[k + 1..], strs) == FlattenProps(ps[q + 1..]) + Rest(t, path)
  }

  lemma RestStart(t: Node, path: seq<nat>)
    requires IsPath(t, path)
    ensures Rest(t, path) != [] && !Rest(t, path)[0].Attr?
  {
  }

  /** A node's property is found among the tokens if and only if the node has one of that name,
      and the token found is the first such property. */
  lemma PropLookup(ts: seq<Token>, strs: seq<byte>, t: Node, path: seq<nat>, name: seq<byte>)
    requires IsPath(t, path) && Named(ts, strs) && Meaning(ts, strs) == Flatten(t)
    ensures var (k, q) := (PropIndex(ts, strs, t, path, name), FindProp(Get(t, path).props, name));
            && (k.Some? <==> q.Some?)
            && (k.Some? ==> PropPlace(ts, strs, t, path, k.value, q.value))
  {
    hide Meaning, Flatten, FlattenProps, NodeIndex, IsPath, Get, PropFrom, Rest, FindProp, EventsOf, CStr;
    var (i, n) := (NodeIndex(ts, strs, t, path), Get(t, path));
    PropsStart(ts, strs, t, path);
    RestStart(t, path);
    PropSearch(ts, strs, i + 1, n.props, Rest(t, path), name);
    var (k, q) := (PropFrom(ts, i + 1, strs, name), FindProp(n.props, name));
    if q.Some? {
      PropFound(ts, strs, i + 1, n.props, Rest(t, path), name, k.value, q.value);
    }
  }

  /** Rewriting the value of the property found sets that property of that node. */
  lemma SetExisting(ts: seq<Token>, strs: seq<byte>, t: Node, path: seq<nat>, name: seq<byte>,
                    value: seq<byte>, k: nat)
    requires IsPath(t, path) && Named(ts, strs) && Meaning(ts, strs) == Flatten(t)
    requires PropIndex(ts, strs, t, path, name) == Some(k)
    ensures var us := [Prop(ts[k].nameoff, value)];
            Meaning(ts[..k] + us + ts[k + 1..], strs) == Flatten(WithProp(t, path, name, value))
  {
    hide Meaning, Flatten, FlattenProps, NodeIndex, IsPath, Get, Put, EventsOf, CStr;
    var (us, p) := ([Prop(ts[k].nameoff, value)], Property(name, value));
    PropSays(ts[k].nameoff, p, strs);
    PropReplace(ts, strs, t, path, name, k, us, [p]);
    var (ps, q) := (Get(t, path).props, FindProp(Get(t, path).props, name).value);
    assert ps[q := p] == ps[..q] + [p] + ps[q + 1..];
  }

  lemma PropSays(nameoff: int, p: Property, strs: seq<byte>)
    requires CStr(strs, nameoff) == Some(p.name)
    ensures Meaning([Prop(nameoff, p.value)], strs) == FlattenProps([p])
  {
  }

  /** Exchanges the property found for others. */
  lemma PropReplace(ts: seq<Token>, strs: seq<byte>, t: Node, path: seq<nat>, name: seq<byte>,
                    k: nat, us: seq<Token>, mid: seq<Property>)
    requires IsPath(t, path) && Named(ts, strs) && Meaning(ts, strs) == Flatten(t)
    requires PropIndex(ts, strs, t, path, name) == Some(k)
    requires Meaning(us, strs) == FlattenProps(mid)
    ensures FindProp(Get(t, path).props, name).Some?
    ensures var (ps, q) := (Get(t, path).props, FindProp(Get(t, path).props, name).value);
            Meaning(ts[..k] + us + ts[k + 1..], strs)
            == Flatten(Put(t, path, Get(t, path).(props := ps[..q] + mid + ps[q + 1..])))
  {
    hide Meaning, Flatten, FlattenProps, NodeIndex, IsPath, Get, PropFrom, Put, FindProp, Rest, EventsOf, CStr;
    PropLookup(ts, strs, t, path, name);
    var (ps, q) := (Get(t, path).props, FindProp(Get(t, path).props, name).value);
    PropEdit(ts, strs, t, path, k, us, k + 1, ps[..q], mid, ps[q + 1..]);
  }

  /** A new property token behind the begin tag adds that property to that node, in front. */
  lemma SetNew(ts: seq<Token>, strs: seq<byte>, t: Node, path: seq<nat>, name: seq<byte>,
               value: seq<byte>, nameoff: int)
    requires IsPath(t, path) && Named(ts, strs) && Meaning(ts, strs) == Flatten(t)
    requires PropIndex(ts, strs, t, path, name) == None && CStr(strs, nameoff) == Some(name)
    ensures var i := NodeIndex(ts, strs, t, path);
            Meaning(ts[..i + 1] + [Prop(nameoff, value)] + ts[i + 1..], strs)
            == Flatten(WithProp(t, path, name, value))
  {
    hide Meaning, Flatten, FlattenProps, NodeIndex, IsPath, Get, PropFrom, Put, Rest, EventsOf, CStr;
    var (i, us) := (NodeIndex(ts, strs, t, path), [Prop(nameoff, value)]);
    var (ps, p) := (Get(t, path).props, Property(name, value));
    PropSays(nameoff, p, strs);
    assert ts[i + 1..i + 1] == [];
    NothingSaid(strs);
    PropLookup(ts, strs, t, path, name);
    PropsStart(ts, strs, t, path);
    PropEdit(ts, strs, t, path, i + 1, us, i + 1, [], [p], ps);
    assert [] + [p] + ps == [p] + ps;
  }

  /** A run of padding tags. */
  function Padding(n: nat): (us: seq<Token>)
    ensures |us| == n
  {
    if n == 0 then [] else [Nop] + Padding(n - 1)
  }

  lemma {:induction false} PaddingSaysNothing(n: nat, strs: seq<byte>)
    ensures Meaning(Padding(n), strs) == []
  {
    if n > 0 {
      PaddingSaysNothing(n - 1, strs);
      assert Padding(n)[1..] == Padding(n - 1);
    }
  }

  /** Cutting the property token out, or padding over it, removes that property from that node. */
  lemma Delete(ts: seq<Token>, strs: seq<byte>, t: Node, path: seq<nat>, name: seq<byte>, k: nat, pad: nat)
    requires IsPath(t, path) && Named(ts, strs) && Meaning(ts, strs) == Flatten(t)
    requires PropIndex(ts, strs, t, path, name) == Some(k)
    ensures Meaning(ts[..k] + Padding(pad) + ts[k + 1..], strs) == Flatten(WithoutProp(t, path, name))
  {
    hide Meaning, Flatten, FlattenProps, NodeIndex, IsPath, Get, Put, EventsOf, CStr;
    PaddingSaysNothing(pad, strs);
    NothingSaid(strs);
    PropReplace(ts, strs, t, path, name, k, Padding(pad), []);
    var (ps, q) := (Get(t, path).props, FindProp(Get(t, path).props, name).value);
    assert ps[..q] + [] + ps[q + 1..] == ps[..q] + ps[q + 1..];
  }

  // ---------------------------------------------------------------- nodes

  /** Cutting a node's tokens out, or padding over them, gives the tree without that node. Without the
      root nothing is said any more. */
  lemma RemoveNode(ts: seq<Token>, strs: seq<byte>, t: Node, path: seq<nat>, pad: nat)
    requires IsPath(t, path) && Meaning(ts, strs) == Flatten(t)
    ensures var i := NodeIndex(ts, strs, t, path);
            && NodeEnd(ts, i).Some?
            && Meaning(ts[..i] + Padding(pad) + ts[NodeEnd(ts, i).value..], strs)
               == if path == [] then [] else Flatten(Prune(t, path))
  {
    hide Meaning, Flatten, After, Before, NodeIndex, IsPath, Get, Prune, CloseFrom, Padding;
    var i := NodeIndex(ts, strs, t, path);
    NodeSpan(ts, strs, t, path);
    MeaningSplice(ts, i, Padding(pad), NodeEnd(ts, i).value, strs);
    PaddingSaysNothing(pad, strs);
    if path == [] {
      AroundRoot(t);
    } else {
      FlattenPrune(t, path);
    }
  }

  lemma AroundRoot(t: Node)
    ensures Before(t, []) == [] && After(t, []) == []
  {
  }

  /** The first token behind `j` that is neither a property nor padding. */
  function AfterProps(ts: seq<Token>, j: nat): (r: nat)
    requires j <= |ts|
    ensures j <= r <= |ts| && (r < |ts| ==> !ts[r].Prop? && !ts[r].Nop?)
    ensures forall k | j <= k < r :: ts[k].Prop? || ts[k].Nop?
    decreases |ts| - j
  {
    if j < |ts| && (ts[j].Prop? || ts[j].Nop?) then AfterProps(ts, j + 1) else j
  }

  /** The tree with an empty node as first child of the node at `path`. */
  function WithChild(t: Node, path: seq<nat>, name: seq<byte>): (r: Node)
    requires IsPath(t, path)
  {
    Put(t, path, Get(t, path).(children := [Node(name, [], [])] + Get(t, path).children))
  }

  lemma AfterPropsStep(ts: seq<Token>, j: nat)
    requires j < |ts|
    ensures ts[j].Prop? || ts[j].Nop? ==> AfterProps(ts, j) == AfterProps(ts, j + 1)
    ensures !ts[j].Prop? && !ts[j].Nop? ==> AfterProps(ts, j) == j
  {
  }

  lemma {:induction false} AfterPropsCount(ts: seq<Token>, strs: seq<byte>, j: nat, ps: seq<Property>,
                                           rest: seq<Event>)
    requires j <= |ts| && Named(ts, strs) && rest != [] && !rest[0].Attr?
    requires Meaning(ts[j..], strs) == FlattenProps(ps) + rest
    ensures |Meaning(ts[j..AfterProps(ts, j)], strs)| == |ps|
    decreases |ts| - j
  {
    hide Meaning, FlattenProps, AfterProps;
    PropsFirst(ps, rest);
    MeaningNil(ts, strs);
    MeaningRun(ts, j, |ts|, strs);
    assert ts[j..|ts|] == ts[j..] && ts[j + 1..|ts|] == ts[j + 1..];
    AfterPropsStep(ts, j);
    if ts[j].Nop? {
      var tl := Meaning(ts[j + 1..], strs);
      assert [] + tl == tl;
      AfterPropsCount(ts, strs, j + 1, ps, rest);
      MeaningRun(ts, j, AfterProps(ts, j + 1), strs);
    } else if ts[j].Prop? {
      assert ps != [];
      AfterPropsCount(ts, strs, j + 1, ps[1..], rest);
      MeaningRun(ts, j, AfterProps(ts, j + 1), strs);
    } else {
      assert ps == [];
    }
  }

  /** The tokens of a node's properties end where the first child or the end tag begins. */
  lemma AfterPropsCut(ts: seq<Token>, strs: seq<byte>, t: Node, path: seq<nat>)
    requires IsPath(t, path) && Named(ts, strs) && Meaning(ts, strs) == Flatten(t)
    ensures var (i, n) := (NodeIndex(ts, strs, t, path), Get(t, path));
            var p := AfterProps(ts, i + 1);
            && Meaning(ts[..p], strs) == Before(t, path) + [Open(n.name)] + FlattenProps(n.props)
            && Meaning(ts[p..], strs) == Rest(t, path)
  {
    hide Meaning, Flatten, FlattenProps, Before, NodeIndex, IsPath, Get, Rest, AfterProps;
    var (i, n) := (NodeIndex(ts, strs, t, path), Get(t, path));
    var p := AfterProps(ts, i + 1);
    PropsStart(ts, strs, t, path);
    RestStart(t, path);
    AfterPropsCount(ts, strs, i + 1, n.props, Rest(t, path));
    assert ts[i + 1..] == ts[i + 1..p] + ts[p..] && ts[..p] == ts[..i + 1] + ts[i + 1..p];
    MeaningConcat(ts[i + 1..p], ts[p..], strs);
    MeaningConcat(ts[..i + 1], ts[i + 1..p], strs);
    CutEqual(Meaning(ts[i + 1..p], strs), Meaning(ts[p..], strs), FlattenProps(n.props), Rest(t, path));
  }

  /** An empty node behind the properties of a node becomes its first child. */
  lemma AddChild(ts: seq<Token>, strs: seq<byte>, t: Node, path: seq<nat>, name: seq<byte>)
    requires IsPath(t, path) && Named(ts, strs) && Meaning(ts, strs) == Flatten(t)
    ensures var p := AfterProps(ts, NodeIndex(ts, strs, t, path) + 1);
            Meaning(ts[..p] + [Begin(name), EndNode] + ts[p..], strs) == Flatten(WithChild(t, path, name))
  {
    hide Meaning, Flatten, FlattenProps, FlattenAll, Before, After, NodeIndex, IsPath, Get, Put, AfterProps;
    var p := AfterProps(ts, NodeIndex(ts, strs, t, path) + 1);
    var (n, c) := (Get(t, path), Node(name, [], []));
    AfterPropsCut(ts, strs, t, path);
    MeaningSplice(ts, p, [Begin(name), EndNode], p, strs);
    EmptyNode(name, strs);
    FlattenPut(t, path, n.(children := [c] + n.children));
    FlattenNode(n.(children := [c] + n.children));
    FlattenAllConcat([c], n.children);
    FlattenOne(c);
  }

  lemma EmptyNode(name: seq<byte>, strs: seq<byte>)
    ensures Meaning([Begin(name), EndNode], strs) == Flatten(Node(name, [], []))
  {
    assert [Begin(name), EndNode][1..] == [EndNode] && [EndNode][1..] == [];
    assert Meaning([EndNode], strs) == [Close];
    assert Flatten(Node(name, [], [])) == [Open(name), Close];
  }
}
