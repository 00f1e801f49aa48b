/** Properties of a node: the search for a name, and what replacing, adding or deleting one means. */
module FdtProps {
  import opened Bytes
  import opened FdtFormat
  import opened FdtTree

  /** The first property called `name`. */
  function FindProp(ps: seq<Property>, name: seq<byte>): (r: Option<nat>)
    ensures r.Some? ==> r.value < |ps| && ps[r.value].name == name
                        && forall q | 0 <= q < r.value :: ps[q].name != name
    ensures r.None? ==> forall q | 0 <= q < |ps| :: ps[q].name != name
  {
    if ps == [] then None
    else if ps[0].name == name then Some(0)
    else match FindProp(ps[1..], name)
      case None => None
      case Some(q) =>
        assert forall p | 0 < p < q + 1 :: ps[p] == ps[1..][p - 1];
        Some(q + 1)
  }

  function SetIn(ps: seq<Property>, name: seq<byte>, value: seq<byte>): (r: seq<Property>) {
    match FindProp(ps, name)
    case Some(q) => ps[q := Property(name, value)]
    case None => [Property(name, value)] + ps
  }

  function DeleteIn(ps: seq<Property>, name: seq<byte>): (r: seq<Property>) {
    match FindProp(ps, name)
    case Some(q) => ps[..q] + ps[q + 1..]
    case None => ps
  }

  /** The property token called `name` in the run of property and padding tags at `j`. */
  function PropFrom(ts: seq<Token>, j: nat, strs: seq<byte>, name: seq<byte>): (r: Option<nat>)
    requires j <= |ts|
    ensures r.Some? ==> j <= r.value < |ts| && ts[r.value].Prop?
                        && CStr(strs, ts[r.value].nameoff) == Some(name)
    decreases |ts| - j
  {
    if j == |ts| then None
    else match ts[j]
      case Nop => PropFrom(ts, j + 1, strs, name)
      case Prop(nameoff, _) =>
        if CStr(strs, nameoff) == Some(name) then Some(j) else PropFrom(ts, j + 1, strs, name)
      case _ => None
  }

  lemma PropStep(ts: seq<Token>, j: nat, strs: seq<byte>, name: seq<byte>)
    requires j < |ts|
    ensures ts[j].Nop? ==> PropFrom(ts, j, strs, name) == PropFrom(ts, j + 1, strs, name)
    ensures ts[j].Prop? && CStr(strs, ts[j].nameoff) != Some(name) ==>
              PropFrom(ts, j, strs, name) == PropFrom(ts, j + 1, strs, name)
    ensures ts[j].Prop? && CStr(strs, ts[j].nameoff) == Some(name) ==> PropFrom(ts, j, strs, name) == Some(j)
    ensures ts[j].Begin? || ts[j].EndNode? ==> PropFrom(ts, j, strs, name) == None
  {
  }

  lemma MeaningRun(ts: seq<Token>, j: nat, k: nat, strs: seq<byte>)
    requires j < k <= |ts|
    ensures Meaning(ts[j..k], strs) == EventsOf(ts[j], strs) + Meaning(ts[j + 1..k], strs)
  {
    assert ts[j..k][1..] == ts[j + 1..k];
  }

  /** The search among the tokens finds exactly the first property of that name. */
  lemma {:induction false} PropSearch(ts: seq<Token>, strs: seq<byte>, j: nat, ps: seq<Property>,
                                      rest: seq<Event>, name: seq<byte>)
    requires j <= |ts| && Named(ts, strs) && rest != [] && !rest[0].Attr?
    requires Meaning(ts[j..], strs) == FlattenProps(ps) + rest
    ensures match FindProp(ps, name)
            case None => PropFrom(ts, j, strs, name) == None
            case Some(q) => PropFrom(ts, j, strs, name).Some?
                            && |Meaning(ts[j..PropFrom(ts, j, strs, name).value], strs)| == q
    decreases |ts| - j
  {
    hide Meaning, FlattenProps, PropFrom;
    PropsFirst(ps, rest);
    MeaningNil(ts, strs);
    MeaningRun(ts, j, |ts|, strs);
    PropStep(ts, j, strs, name);
    PropRun(ts, j, strs, name);
    assert ts[j..|ts|] == ts[j..] && ts[j + 1..|ts|] == ts[j + 1..];
    if ts[j].Nop? {
      var tl := Meaning(ts[j + 1..], strs);
      assert [] + tl == tl;
      PropSearch(ts, strs, j + 1, ps, rest, name);
    } else if ts[j].Prop? {
      assert ps != [] && CStr(strs, ts[j].nameoff) == Some(ps[0].name);
      if ps[0].name != name {
        PropSearch(ts, strs, j + 1, ps[1..], rest, name);
      }
    } else {
      assert ps == [];
    }
  }

  lemma PropRun(ts: seq<Token>, j: nat, strs: seq<byte>, name: seq<byte>)
    requires j < |ts|
    ensures var k := PropFrom(ts, j + 1, strs, name);
            k.Some? ==> Meaning(ts[j..k.value], strs)
                        == EventsOf(ts[j], strs) + Meaning(ts[j + 1..k.value], strs)
  {
    var k := PropFrom(ts, j + 1, strs, name);
    if k.Some? {
      MeaningRun(ts, j, k.value, strs);
    }
  }

  lemma MeaningNil(ts: seq<Token>, strs: seq<byte>)
    ensures forall j | 0 <= j <= |ts| :: Meaning(ts[j..j], strs) == []
    ensures Meaning(ts[|ts|..], strs) == []
  {
  }

  /** A property found: the token says it, and the tokens around it say its neighbours. */
  lemma PropFound(ts: seq<Token>, strs: seq<byte>, j: nat, ps: seq<Property>, rest: seq<Event>,
                  name: seq<byte>, k: nat, q: nat)
    requires j <= k < |ts| && q < |ps| && ts[k].Prop? && CStr(strs, ts[k].nameoff).Some?
    requires Meaning(ts[j..], strs) == FlattenProps(ps) + rest && |Meaning(ts[j..k], strs)| == q
    ensures Meaning(ts[j..k], strs) == FlattenProps(ps[..q])
    ensures EventsOf(ts[k], strs) == [Attr(ps[q])]
    ensures Meaning(ts[k + 1..], strs) == FlattenProps(ps[q + 1..]) + rest
  {
    hide Meaning, FlattenProps, EventsOf;
    PropSaysOne(ts[k], strs);
    MeaningFrom(ts, j, k, strs);
    PropsSplit(ps, q, rest);
    var (ev, tl, tl') := (EventsOf(ts[k], strs), FlattenProps(ps[q + 1..]) + rest, Meaning(ts[k + 1..], strs));
    CutEqual(Meaning(ts[j..k], strs), ev + tl', FlattenProps(ps[..q]), [Attr(ps[q])] + tl);
    CutEqual(ev, tl', [Attr(ps[q])], tl);
  }

  lemma PropSaysOne(t: Token, strs: seq<byte>)
    requires t.Prop? && CStr(strs, t.nameoff).Some?
    ensures |EventsOf(t, strs)| == 1
  {
  }

  lemma PropsSplit(ps: seq<Property>, q: nat, rest: seq<Event>)
    requires q < |ps|
    ensures FlattenProps(ps) + rest
            == FlattenProps(ps[..q]) + ([Attr(ps[q])] + (FlattenProps(ps[q + 1..]) + rest))
  {
    hide FlattenProps;
    var (a, p, b) := (FlattenProps(ps[..q]), [Attr(ps[q])], FlattenProps(ps[q + 1..]));
    PropsAround(ps, q);
    Assoc(a, p + b, rest);
    Assoc(p, b, rest);
  }

  lemma OneProp(p: Property)
    ensures FlattenProps([p]) == [Attr(p)]
  {
  }

  lemma PropsAround(ps: seq<Property>, q: nat)
    requires q < |ps|
    ensures FlattenProps(ps) == FlattenProps(ps[..q]) + ([Attr(ps[q])] + FlattenProps(ps[q + 1..]))
  {
    hide FlattenProps;
    OneProp(ps[q]);
    Around(ps, q);
    FlattenPropsConcat(ps[..q], [ps[q]] + ps[q + 1..]);
    FlattenPropsConcat([ps[q]], ps[q + 1..]);
  }
}
