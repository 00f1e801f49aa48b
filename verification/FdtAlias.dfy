/** Paths that may start with an alias: the name of a property of the node /aliases, whose value is a
    path again. */
module FdtAlias {
  import opened Bytes
  import opened FdtFormat
  import opened FdtTree
  import opened FdtNodes
  import opened FdtProps
  import opened FdtRo
  import opened FdtRw
  import opened FdtPath

  /** "/aliases" */
  const ALIASES: seq<byte> := [47, 97, 108, 105, 97, 115, 101, 115]

  function AliasNode(t: Node): (r: Option<seq<nat>>)
    ensures r.Some? ==> IsPath(t, r.value)
  {
    Resolve(t, Components(ALIASES))
  }

  /** The bytes of the property an alias is. */
  function AliasBytes(t: Node, name: seq<byte>): Option<seq<byte>> {
    match AliasNode(t)
    case None => None
    case Some(p) => ValueOf(Get(t, p).props, name)
  }

  /** What a name is as an alias. Without a terminator the tree does not say where its string ends. */
  datatype Alias = NoAlias | Unterminated | StandsFor(path: seq<byte>)

  function AliasOf(t: Node, name: seq<byte>): Alias {
    ReadAlias(AliasBytes(t, name))
  }

  function ReadAlias(v: Option<seq<byte>>): Alias {
    match v
    case None => NoAlias
    case Some(s) => if CStr(s, 0).Some? then StandsFor(CStr(s, 0).value) else Unterminated
  }

  predicate Rooted(path: seq<byte>) {
    path != [] && path[0] == SLASH
  }

  /** Where a path leads, or why it leads nowhere; or an alias on the way has no terminator. */
  datatype Answer = At(node: seq<nat>) | Fails(err: int) | Unsaid

  function Found(p: Option<seq<nat>>): Answer {
    match p
    case None => Fails(-ERR_NOTFOUND)
    case Some(node) => At(node)
  }

  /** Where a path leads if aliases stand for aliases at most `n` times; nothing if they go on. */
  function Meant(t: Node, path: seq<byte>, n: nat): (r: Option<Answer>)
    ensures r.Some? && r.value.At? ==> IsPath(t, r.value.node)
    ensures r.Some? && r.value.Fails? ==> r.value.err < 0
    decreases n
  {
    if Rooted(path) then Some(Found(Resolve(t, Components(path))))
    else match AliasOf(t, FirstName(path))
      case NoAlias => Some(Fails(-ERR_BADPATH))
      case Unterminated => Some(Unsaid)
      case StandsFor(v) =>
        if n == 0 then None
        else match Meant(t, v, n - 1)
          case None => None
          case Some(At(node)) => Some(Found(ResolveFrom(t, node, Components(Behind(path)))))
          case Some(other) => Some(other)
  }

  /** A path up to its first slash. */
  function FirstName(path: seq<byte>): seq<byte> {
    path[..NextSlash(path, 0)]
  }

  /** A path from its first slash on. */
  function Behind(path: seq<byte>): (r: seq<byte>)
    ensures r == [] || r[0] == SLASH
  {
    path[NextSlash(path, 0)..]
  }

  /** The answer does not depend on the bound. */
  lemma {:induction false} MeantOnce(t: Node, path: seq<byte>, n: nat, m: nat)
    requires n <= m && Meant(t, path, n).Some?
    ensures Meant(t, path, m) == Meant(t, path, n)
    decreases n
  {
    hide Resolve, ResolveFrom, Components, AliasOf, FirstName, Behind;
    if !Rooted(path) && AliasOf(t, FirstName(path)).StandsFor? {
      MeantOnce(t, AliasOf(t, FirstName(path)).path, n - 1, m - 1);
    }
  }

  /** Where a path leads that goes on with the names `cs`. */
  function Onwards(t: Node, m: Option<Answer>, cs: seq<seq<byte>>): Option<Answer>
    requires m.Some? && m.value.At? ==> IsPath(t, m.value.node)
  {
    match m
    case Some(At(node)) => Some(Found(ResolveFrom(t, node, cs)))
    case other => other
  }

  /** A longer path leads on from where the shorter one does. */
  lemma MeantOnwards(t: Node, a: seq<byte>, b: seq<byte>, n: nat)
    requires a != [] && (b == [] || b[0] == SLASH)
    ensures Meant(t, a + b, n) == Onwards(t, Meant(t, a, n), Components(b))
  {
    hide Resolve, ResolveFrom, Components, AliasOf, FirstName, Behind;
    ComponentsJoin(a, b);
    if Rooted(a) {
      ResolveConcat(t, Components(a), Components(b));
    } else {
      HeadJoin(a, b);
      ComponentsJoin(Behind(a), b);
      var v := AliasOf(t, FirstName(a));
      if v.StandsFor? && n > 0 {
        var m := Meant(t, v.path, n - 1);
        if m.Some? && m.value.At? {
          FromConcat(t, m.value.node, Components(Behind(a)), Components(b));
        }
      }
    }
  }

  /** Writing the value of an alias, unless it is empty, for the alias leads to the same node. */
  lemma AliasExpands(t: Node, path: seq<byte>, n: nat)
    requires !Rooted(path) && n > 0
    requires AliasOf(t, FirstName(path)).StandsFor? && AliasOf(t, FirstName(path)).path != []
    ensures Meant(t, path, n) == Meant(t, AliasOf(t, FirstName(path)).path + Behind(path), n - 1)
  {
    hide Resolve, ResolveFrom, Components, AliasOf, FirstName, Behind;
    MeantOnwards(t, AliasOf(t, FirstName(path)).path, Behind(path), n - 1);
  }

  /** A path goes on behind another. */
  lemma ComponentsJoin(a: seq<byte>, b: seq<byte>)
    requires b == [] || b[0] == SLASH
    ensures Components(a + b) == Components(a) + Components(b)
  {
    if b == [] {
      assert a + b == a && Components(b) == [];
    } else {
      assert a + b == a + [SLASH] + b[1..];
      ComponentsSplit(a, b[1..]);
    }
  }

  lemma HeadJoin(a: seq<byte>, b: seq<byte>)
    requires b == [] || b[0] == SLASH
    ensures FirstName(a + b) == FirstName(a) && Behind(a + b) == Behind(a) + b
  {
    var q := NextSlash(a, 0);
    if b == [] {
      assert a + b == a;
    } else {
      assert a + b == a + [SLASH] + b[1..];
      SlashBefore(a, b[1..], 0);
    }
    assert (a + b)[..q] == a[..q] && (a + b)[q..] == a[q..] + b;
  }

  lemma FromConcat(t: Node, at: seq<nat>, a: seq<seq<byte>>, b: seq<seq<byte>>)
    requires IsPath(t, at)
    ensures match ResolveFrom(t, at, a)
            case None => ResolveFrom(t, at, a + b) == None
            case Some(p) => ResolveFrom(t, at, a + b) == ResolveFrom(t, p, b)
  {
    hide Resolve, IsPath, Get;
    var n := Get(t, at);
    ResolveConcat(n, a, b);
    match Resolve(n, a)
    case None =>
    case Some(p) =>
      PathJoin(t, at, p);
      match Resolve(Get(n, p), b)
      case None =>
      case Some(r) => assert at + (p + r) == at + p + r;
  }

  // ---------------------------------------------------------------- circles

  /** Following the alias `name` comes to an end after at most `n` of them. */
  predicate Ends(t: Node, name: seq<byte>, n: nat)
    decreases n
  {
    match AliasOf(t, name)
    case StandsFor(v) => n > 0 && (Rooted(v) || Ends(t, FirstName(v), n - 1))
    case _ => true
  }

  lemma {:induction false} MeantIfEnds(t: Node, path: seq<byte>, n: nat)
    ensures Meant(t, path, n).Some? <==> Rooted(path) || Ends(t, FirstName(path), n)
    decreases n
  {
    hide Resolve, ResolveFrom, Components, AliasOf, FirstName, Behind;
    if !Rooted(path) && AliasOf(t, FirstName(path)).StandsFor? && n > 0 {
      MeantIfEnds(t, AliasOf(t, FirstName(path)).path, n - 1);
    }
  }

  lemma {:induction false} EndsLater(t: Node, name: seq<byte>, n: nat, m: nat)
    requires Ends(t, name, n) && n <= m
    ensures Ends(t, name, m)
    decreases n
  {
    hide AliasOf, FirstName;
    var a := AliasOf(t, name);
    if a.StandsFor? && !Rooted(a.path) {
      EndsLater(t, FirstName(a.path), n - 1, m - 1);
    }
  }

  /** The alias that is reached when `k` have been followed from `name`. */
  function Hop(t: Node, name: seq<byte>, k: nat): Option<seq<byte>>
    decreases k
  {
    match AliasOf(t, name)
    case StandsFor(v) => if k == 0 then Some(name) else if Rooted(v) then None else Hop(t, FirstName(v), k - 1)
    case _ => None
  }

  /** Following aliases from `name` comes back to one. */
  ghost predicate Circle(t: Node, name: seq<byte>) {
    exists i: nat, j: nat :: i < j && Returns(t, name, i, j)
  }

  predicate Returns(t: Node, name: seq<byte>, i: nat, j: nat) {
    Hop(t, name, i).Some? && Hop(t, name, i) == Hop(t, name, j)
  }

  lemma {:induction false} HopIsAlias(t: Node, name: seq<byte>, k: nat)
    ensures Hop(t, name, k).Some? ==> AliasOf(t, Hop(t, name, k).value).StandsFor?
    decreases k
  {
    hide AliasOf, FirstName;
    var a := AliasOf(t, name);
    if k > 0 && a.StandsFor? && !Rooted(a.path) {
      HopIsAlias(t, FirstName(a.path), k - 1);
    }
  }

  /** What is left to follow behind an alias on the way. */
  lemma {:induction false} HopEnds(t: Node, name: seq<byte>, k: nat, n: nat)
    requires Hop(t, name, k).Some?
    ensures Ends(t, Hop(t, name, k).value, n) <==> Ends(t, name, k + n)
    decreases k
  {
    hide AliasOf, FirstName;
    if k > 0 {
      HopEnds(t, FirstName(AliasOf(t, name).path), k - 1, n);
    }
  }

  lemma {:induction false} NotYetEnded(t: Node, name: seq<byte>, n: nat, k: nat)
    requires !Ends(t, name, n) && k <= n
    ensures Hop(t, name, k).Some?
    decreases k
  {
    hide AliasOf, FirstName;
    if k > 0 {
      NotYetEnded(t, FirstName(AliasOf(t, name).path), n - 1, k - 1);
    }
  }

  /** `i`, and as many rounds of `j - i` behind it. */
  function Later(i: nat, j: nat, rounds: nat): (r: nat)
    requires i < j
    ensures r >= rounds
  {
    if rounds == 0 then i else Later(i, j, rounds - 1) + (j - i)
  }

  /** Every round of a circle leads to the next. */
  lemma {:induction false} RoundAndRound(t: Node, name: seq<byte>, i: nat, j: nat, rounds: nat)
    requires i < j && Returns(t, name, i, j)
    ensures !Ends(t, name, Later(i, j, rounds)) && Later(i, j, rounds) >= i
    decreases rounds
  {
    hide AliasOf, FirstName, Hop, Ends;
    if rounds == 0 {
      HopEnds(t, name, i, 0);
      HopIsAlias(t, name, i);
      NotEnded(t, Hop(t, name, i).value);
    } else {
      RoundAndRound(t, name, i, j, rounds - 1);
      var n := Later(i, j, rounds - 1) - i;
      HopEnds(t, name, i, n);
      HopEnds(t, name, j, n);
    }
  }

  lemma NotEnded(t: Node, name: seq<byte>)
    requires AliasOf(t, name).StandsFor?
    ensures !Ends(t, name, 0)
  {
  }

  ghost predicate PassedBy(t: Node, name: seq<byte>, n: nat, x: seq<byte>) {
    exists k: nat :: k < n && Hop(t, name, k) == Some(x)
  }

  /** While no alias comes back, each is a new one. */
  lemma {:induction false} Hops(t: Node, name: seq<byte>, n: nat) returns (names: set<seq<byte>>)
    requires !Circle(t, name) && forall k: nat | k < n :: Hop(t, name, k).Some?
    ensures |names| == n && forall x | x in names :: AliasOf(t, x).StandsFor? && PassedBy(t, name, n, x)
    decreases n
  {
    hide AliasOf, FirstName, Hop;
    if n == 0 {
      names := {};
    } else {
      var x := Hop(t, name, n - 1).value;
      names := Hops(t, name, n - 1);
      HopIsAlias(t, name, n - 1);
      forall k: nat | k < n - 1 ensures Hop(t, name, k) != Some(x) {
        assert !Returns(t, name, k, n - 1);
      }
      forall y | y in names ensures PassedBy(t, name, n, y) {
        var k: nat :| k < n - 1 && Hop(t, name, k) == Some(y);
      }
      names := names + {x};
    }
  }

  function NamesOf(ps: seq<Property>): (r: set<seq<byte>>)
    ensures |r| <= |ps|
  {
    if ps == [] then {} else NamesOf(ps[1..]) + {ps[0].name}
  }

  lemma {:induction false} NamesOfAll(ps: seq<Property>, i: nat)
    requires i < |ps|
    ensures ps[i].name in NamesOf(ps)
  {
    if i > 0 {
      NamesOfAll(ps[1..], i - 1);
    }
  }

  lemma {:induction false} SubsetSize(a: set<seq<byte>>, b: set<seq<byte>>)
    requires a <= b
    ensures |a| <= |b|
    decreases a
  {
    if a != {} {
      var x :| x in a;
      SubsetSize(a - {x}, b - {x});
    }
  }

  /** How many aliases there are. */
  function AliasCount(t: Node): nat {
    match AliasNode(t)
    case None => 0
    case Some(p) => |Get(t, p).props|
  }

  lemma AliasesAreFew(t: Node, names: set<seq<byte>>)
    requires forall x | x in names :: AliasOf(t, x).StandsFor?
    ensures |names| <= AliasCount(t)
  {
    hide CStr, NamesOf;
    if names != {} {
      var y :| y in names;
      var ps := Get(t, AliasNode(t).value).props;
      forall x | x in names ensures x in NamesOf(ps) {
        NamesOfAll(ps, FindProp(ps, x).value);
      }
      NamesFew(ps);
      SubsetSize(names, NamesOf(ps));
    }
  }

  lemma NamesFew(ps: seq<Property>)
    ensures |NamesOf(ps)| <= |ps|
  {
  }

  /** A circle has no end. */
  lemma CircleGoesOn(t: Node, name: seq<byte>, n: nat)
    requires Circle(t, name)
    ensures !Ends(t, name, n)
  {
    hide AliasOf, FirstName, Hop;
    var i: nat, j: nat :| i < j && Returns(t, name, i, j);
    RoundAndRound(t, name, i, j, n);
    if Ends(t, name, n) {
      EndsLater(t, name, n, Later(i, j, n));
    }
  }

  /** Without a circle the end comes after at most as many aliases as there are. */
  lemma NoCircleEnds(t: Node, name: seq<byte>)
    requires !Circle(t, name)
    ensures Ends(t, name, AliasCount(t))
  {
    hide AliasOf, FirstName, Hop, AliasCount;
    var n := AliasCount(t);
    if !Ends(t, name, n) {
      forall k: nat | k < n + 1 ensures Hop(t, name, k).Some? {
        NotYetEnded(t, name, n, k);
      }
      var names := Hops(t, name, n + 1);
      AliasesAreFew(t, names);
    }
  }

  /** A path leads somewhere, or to an error, exactly if it starts with a slash or its aliases do not
      run into a circle; then it does so after at most as many aliases as there are. */
  lemma AliasesEnd(t: Node, path: seq<byte>)
    ensures (exists n: nat :: Meant(t, path, n).Some?) <==> Rooted(path) || !Circle(t, FirstName(path))
    ensures Rooted(path) || !Circle(t, FirstName(path)) ==> Meant(t, path, AliasCount(t)).Some?
  {
    hide Meant, Ends, Circle, FirstName, AliasCount;
    MeantIfEnds(t, path, AliasCount(t));
    if !Circle(t, FirstName(path)) {
      NoCircleEnds(t, FirstName(path));
    } else {
      forall n: nat ensures Meant(t, path, n).Some? <==> Rooted(path) {
        MeantIfEnds(t, path, n);
        CircleGoesOn(t, FirstName(path), n);
      }
    }
  }

  /** An alias that stands for itself is a circle. */
  lemma AliasOfItself()
    ensures var aliases := Node([97, 108, 105, 97, 115, 101, 115], [Property([97], [97, 0])], []);
            Circle(Node([], [], [aliases]), [97])
  {
    hide Components, AliasOf, FirstName;
    var t := Node([], [], [Node(ALIASES[1..], [Property([97], [97, 0])], [])]);
    assert ALIASES[1..] == [97, 108, 105, 97, 115, 101, 115];
    AliasA(t);
    NoSlash();
    assert Returns(t, [97], 0, 1);
  }

  lemma NoSlash()
    ensures FirstName([97]) == [97]
  {
    assert NextSlash([97], 0) == 1;
  }

  lemma AliasA(t: Node)
    requires t == Node([], [], [Node(ALIASES[1..], [Property([97], [97, 0])], [])])
    ensures AliasOf(t, [97]) == StandsFor([97])
  {
    hide Components, Matches, FirstMatch, CStr, FindProp, Resolve;
    AliasComponents();
    FirstChild(t, ALIASES[1..]);
    assert AliasNode(t) == Some([0]);
    assert [0][1..] == [] && Get(t.children[0], []) == t.children[0];
    assert Get(t, [0]) == t.children[0];
    FirstProp(t.children[0].props, [97]);
    CStrAt([97, 0], 0, [97]);
  }

  lemma FirstChild(n: Node, name: seq<byte>)
    requires n.children != [] && n.children[0].name == name
    ensures Resolve(n, [name]) == Some([0])
  {
    hide Matches;
    SelfMatch(name);
    assert FirstMatch(n.children, name) == Some(0);
    assert [name][1..] == [] && [0] + [] == [0];
  }

  lemma FirstProp(ps: seq<Property>, name: seq<byte>)
    requires ps != [] && ps[0].name == name
    ensures FindProp(ps, name) == Some(0)
  {
  }

  lemma AliasComponents()
    ensures Components(ALIASES) == [ALIASES[1..]]
  {
    var a := ALIASES[1..];
    assert Components(ALIASES) == Components(a);
    assert NextSlash(a, 0) == |a|;
    assert a[..|a|] == a && a[|a|..] == [];
  }

  // ---------------------------------------------------------------- the lookup

  /** Reads an alias. One without a terminator is read on into the bytes behind it. */
  method GetAlias(w: seq<byte>, strs: seq<byte>, name: seq<byte>, ghost t: Node) returns (r: Option<seq<byte>>)
    requires Denotes(w, strs, t)
    ensures r.Some? <==> OnNode(w, 0) && !AliasOf(t, name).NoAlias?
    ensures r.Some? && AliasOf(t, name).StandsFor? ==> r.value == AliasOf(t, name).path
    ensures r.Some? ==> 0 !in r.value
  {
    hide Walk, IsBlock, Toks, Meaning, Flatten, IndexOf, Size, NodeIndex, IsPath, Components, Resolve, ResolveFrom, Get,
         NodeTok, OnNode, NextTag, Block, Named, NodeOffset, Lookup, ValueOf, CStr, PathAt, AliasOf, ReadAlias;
    AliasComponents();
    PathStart(t, ALIASES);
    if OnNode(w, 0) {
      RootOffset(w, strs, t);
    }
    var offset := Descend(w, strs, ALIASES, 0, 0, t, []);
    AliasPlace(w, strs, t, name, offset);
    if offset < 0 {
      return None;
    }
    var prop, len := GetProperty(w, strs, offset, name);
    if prop.None? {
      NothingThere(w, strs, t, offset, name, len);
      NothingRead();
      return None;
    }
    ghost var k := LookupHit(w, strs, t, offset, name, prop.value, len);
    ValueThere(w, strs, t, offset, name, k);
    ValueEnd(w, k);
    StringThere(w, prop.value + 12, Toks(w)[k].value);
    return CStr(w, prop.value + 12);
  }

  lemma ValueEnd(w: seq<byte>, k: nat)
    requires Block(w) && k < |Toks(w)| && Toks(w)[k].Prop?
    ensures Off(Toks(w), k) + 12 + |Toks(w)[k].value| <= |w| - 4
  {
    hide Walk, Toks, Size, Encodes, TagAlign;
    NextTagAt(w, Toks(w), k);
  }

  lemma NothingRead()
    ensures ReadAlias(None) == NoAlias
  {
  }

  /** What the offset of the node /aliases tells. */
  lemma AliasPlace(w: seq<byte>, strs: seq<byte>, t: Node, name: seq<byte>, off: int)
    requires Denotes(w, strs, t)
    requires OnNode(w, 0) ==>
               match AliasNode(t)
               case Some(p) => off == NodeOffset(w, strs, t, p)
               case None => off == -ERR_NOTFOUND
    requires !OnNode(w, 0) ==> off == -ERR_BADOFFSET
    ensures off < 0 ==> !OnNode(w, 0) || AliasOf(t, name) == NoAlias
    ensures off >= 0 ==> OnNode(w, 0) && Plausible(w, off) && IsNode(w, off) && OnNode(w, off)
                         && AliasOf(t, name) == ReadAlias(ValueOf(Get(t, PathAt(w, strs, t, off)).props, name))
  {
    hide Walk, IsBlock, Toks, Meaning, Flatten, IndexOf, Size, NodeIndex, IsPath, Components, Resolve, Get,
         NodeTok, OnNode, NextTag, Block, Named, ValueOf, CStr, PathAt;
    if AliasNode(t).Some? {
      PathOffsets(w, strs, t, AliasNode(t).value);
    }
  }

  /** A terminated string at the start of a value is the string there. In a block there always is one,
      because the end tag starts with a zero byte. */
  lemma StringThere(w: seq<byte>, o: nat, v: seq<byte>)
    requires Block(w) && o + |v| <= |w| - 4 && w[o..o + |v|] == v
    ensures CStr(w, o).Some? && !ReadAlias(Some(v)).NoAlias?
    ensures ReadAlias(Some(v)).StandsFor? ==> CStr(w, o) == Some(ReadAlias(Some(v)).path)
  {
    hide Walk, Encodes, CStr;
    EndTag(w);
    ZeroBehind(w, o);
    if CStr(v, 0).Some? {
      CStrExtend(w[..o], v, w[o + |v|..], 0);
      assert w[..o] + v + w[o + |v|..] == w;
    }
  }

  lemma EndTag(w: seq<byte>)
    requires Block(w)
    ensures |w| >= 4 && w[|w| - 4] == 0
  {
    hide Walk, Encodes;
    assert IsBlock(w, Toks(w));
  }

  lemma ZeroBehind(w: seq<byte>, o: nat)
    requires |w| >= 4 && o <= |w| - 4 && w[|w| - 4] == 0
    ensures CStr(w, o).Some?
  {
  }

  /** Looks a path up. One that does not start with a slash starts with an alias, and is looked up by a
      nested call, for which there is room on the stack `depth` times. */
  method PathOffset(w: seq<byte>, strs: seq<byte>, path: seq<byte>, depth: nat, ghost t: Node) returns (r: Option<int>)
    requires Denotes(w, strs, t) && 0 !in path
    ensures OnNode(w, 0) ==>
              match Meant(t, path, depth)
              case None => r == None
              case Some(At(node)) => r == Some(NodeOffset(w, strs, t, node))
              case Some(Fails(err)) => r == Some(err)
              case Some(Unsaid) => true
    ensures OnNode(w, 0) && r.Some? && r.value >= 0 ==> OnNode(w, r.value)
    ensures !OnNode(w, 0) ==>
              r == Some(if !Rooted(path) then -ERR_BADPATH else if Components(path) == [] then 0 else -ERR_BADOFFSET)
    decreases depth
  {
    hide Walk, IsBlock, Toks, Meaning, Flatten, IndexOf, Size, NodeIndex, IsPath, Components, Resolve, ResolveFrom, Get,
         NodeTok, OnNode, NextTag, Block, Named, NodeOffset, NextSlash, AliasOf, PathAt;
    if Rooted(path) {
      PathStart(t, path);
      if OnNode(w, 0) {
        RootOffset(w, strs, t);
      }
      var down := Descend(w, strs, path, 0, 0, t, []);
      FoundOnNode(w, strs, t, Resolve(t, Components(path)));
      return Some(down);
    }
    var q := NextSlash(path, 0);
    var v := GetAlias(w, strs, path[..q], t);
    if v.None? {
      return Some(-ERR_BADPATH);
    }
    if depth == 0 {
      return None;
    }
    r := PathOffset(w, strs, v.value, depth - 1, t);
    if r.None? {
      return;
    }
    if AliasOf(t, path[..q]).StandsFor? && Meant(t, v.value, depth - 1).value.At? {
      PathOffsets(w, strs, t, Meant(t, v.value, depth - 1).value.node);
    }
    ghost var at := if r.value < 0 then [] else PathAt(w, strs, t, r.value);
    if r.value >= 0 {
      OffsetOfPath(w, strs, t, r.value);
      FoundOnNode(w, strs, t, ResolveFrom(t, at, Components(path[q..])));
    }
    var down := Descend(w, strs, path, q, r.value, t, at);
    return Some(down);
  }

  lemma OffsetOfPath(w: seq<byte>, strs: seq<byte>, t: Node, off: int)
    requires Denotes(w, strs, t) && OnNode(w, off)
    ensures OffsetIs(w, strs, t, PathAt(w, strs, t, off), off)
  {
  }

  lemma FoundOnNode(w: seq<byte>, strs: seq<byte>, t: Node, p: Option<seq<nat>>)
    requires Denotes(w, strs, t) && (p.Some? ==> IsPath(t, p.value))
    ensures p.Some? ==> OnNode(w, NodeOffset(w, strs, t, p.value))
  {
    hide Walk, IsBlock, Toks, Meaning, Flatten, IndexOf, Size, NodeIndex, IsPath, NextTag, Block;
    if p.Some? {
      PathOffsets(w, strs, t, p.value);
    }
  }
}
