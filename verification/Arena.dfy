/** The kernel's page arena: free segments ordered by address, split at the front and joined again
    when freed. The ordered tree of segments is a sequence here. */
module Arena {
  import opened Arith

  datatype Segment = Segment(base: nat, size: nat) {
    function End(): nat {
      base + size
    }
  }

  // ---------------------------------------------------------------- segments

  predicate Holds(s: Segment, x: int) {
    s.base <= x < s.End()
  }

  /** The byte `x` is free. */
  predicate In(segs: seq<Segment>, x: int) {
    exists i :: 0 <= i < |segs| && Holds(segs[i], x)
  }

  predicate Before(a: Segment, b: Segment) {
    a.End() <= b.base
  }

  /** In order, disjoint and not empty. */
  predicate Sorted(segs: seq<Segment>) {
    && (forall i | 0 <= i < |segs| :: segs[i].size > 0 && segs[i].base > 0)
    && (forall i, j | 0 <= i < j < |segs| :: Before(segs[i], segs[j]))
  }

  /** No two segments could be joined. */
  predicate Joined(segs: seq<Segment>) {
    forall i, j | 0 <= i < j < |segs| :: segs[i].End() != segs[j].base
  }

  /** All sizes are multiples of `unit`. */
  predicate Multiples(segs: seq<Segment>, unit: nat) {
    unit > 0 && forall i | 0 <= i < |segs| :: segs[i].size % unit == 0
  }

  /** `s` overlaps no segment. */
  predicate Clear(segs: seq<Segment>, s: Segment) {
    forall i | 0 <= i < |segs| :: Before(segs[i], s) || Before(s, segs[i])
  }

  /** `s` does not touch a segment. */
  predicate Lone(segs: seq<Segment>, s: Segment) {
    forall i | 0 <= i < |segs| :: segs[i].End() != s.base && s.End() != segs[i].base
  }

  /** How many segments start before `x`. */
  function Position(segs: seq<Segment>, x: nat): (p: nat)
    ensures p <= |segs|
    ensures forall i | 0 <= i < p :: segs[i].base < x
    ensures p < |segs| ==> segs[p].base >= x
  {
    if segs == [] || segs[0].base >= x then 0 else 1 + Position(segs[1..], x)
  }

  function Remove(segs: seq<Segment>, i: nat): seq<Segment>
    requires i < |segs|
  {
    segs[..i] + segs[i + 1..]
  }

  function Insert(segs: seq<Segment>, s: Segment): seq<Segment> {
    var p := Position(segs, s.base);
    segs[..p] + [s] + segs[p..]
  }

  lemma RemoveOk(segs: seq<Segment>, i: nat)
    requires Sorted(segs) && i < |segs|
    ensures Sorted(Remove(segs, i)) && (Joined(segs) ==> Joined(Remove(segs, i))) && Clear(Remove(segs, i), segs[i])
    ensures forall unit: nat | unit > 0 && Multiples(segs, unit) :: Multiples(Remove(segs, i), unit)
  {
    var r := Remove(segs, i);
    assert forall j | 0 <= j < |r| :: r[j] == segs[if j < i then j else j + 1];
  }

  lemma RemoveIn(segs: seq<Segment>, i: nat, x: int)
    requires i < |segs|
    ensures In(segs, x) <==> In(Remove(segs, i), x) || Holds(segs[i], x)
  {
    var r := Remove(segs, i);
    assert forall j | 0 <= j < |r| :: r[j] == segs[if j < i then j else j + 1];
    if j :| 0 <= j < |segs| && Holds(segs[j], x) && j != i {
      assert r[if j < i then j else j - 1] == segs[j];
    }
  }

  lemma PositionClear(segs: seq<Segment>, s: Segment)
    requires Sorted(segs) && Clear(segs, s) && s.size > 0
    ensures var p := Position(segs, s.base);
            && (forall i | 0 <= i < p :: Before(segs[i], s)) && (forall i | p <= i < |segs| :: Before(s, segs[i]))
  {
    var p := Position(segs, s.base);
    forall i | 0 <= i < |segs| ensures if i < p then Before(segs[i], s) else Before(s, segs[i]) {
      assert i > p ==> Before(segs[p], segs[i]);
    }
  }

  lemma InsertElements(segs: seq<Segment>, s: Segment)
    ensures var (r, p) := (Insert(segs, s), Position(segs, s.base));
            && |r| == |segs| + 1 && r[p] == s
            && (forall j | 0 <= j < p :: r[j] == segs[j]) && (forall j | p < j < |r| :: r[j] == segs[j - 1])
  {
    hide Position;
    PutAt(segs, Position(segs, s.base), s);
  }

  lemma PutAt(segs: seq<Segment>, p: nat, s: Segment)
    requires p <= |segs|
    ensures var r := segs[..p] + [s] + segs[p..];
            && |r| == |segs| + 1 && r[p] == s
            && (forall j | 0 <= j < p :: r[j] == segs[j]) && (forall j | p < j < |r| :: r[j] == segs[j - 1])
  {
  }

  lemma InsertOk(segs: seq<Segment>, s: Segment)
    requires Sorted(segs) && Clear(segs, s) && s.size > 0 && s.base > 0
    ensures Sorted(Insert(segs, s)) && (Joined(segs) && Lone(segs, s) ==> Joined(Insert(segs, s)))
  {
    hide Insert, Sorted, Joined, Lone;
    InsertSorted(segs, s);
    if Joined(segs) && Lone(segs, s) {
      InsertJoined(segs, s);
    }
  }

  lemma InsertSorted(segs: seq<Segment>, s: Segment)
    requires Sorted(segs) && Clear(segs, s) && s.size > 0 && s.base > 0
    ensures Sorted(Insert(segs, s))
  {
    hide Insert, Before;
    PositionClear(segs, s);
    InsertElements(segs, s);
  }

  lemma InsertJoined(segs: seq<Segment>, s: Segment)
    requires Joined(segs) && Lone(segs, s)
    ensures Joined(Insert(segs, s))
  {
    hide Insert;
    InsertElements(segs, s);
  }

  lemma InsertMultiples(segs: seq<Segment>, s: Segment, unit: nat)
    requires Multiples(segs, unit) && s.size % unit == 0
    ensures Multiples(Insert(segs, s), unit)
  {
    hide Insert;
    InsertElements(segs, s);
  }

  lemma InsertIn(segs: seq<Segment>, s: Segment, x: int)
    ensures In(Insert(segs, s), x) <==> In(segs, x) || Holds(s, x)
  {
    hide Insert;
    InsertElements(segs, s);
    var (r, p) := (Insert(segs, s), Position(segs, s.base));
    if i :| 0 <= i < |segs| && Holds(segs[i], x) {
      assert r[if i < p then i else i + 1] == segs[i];
    }
  }

  // ---------------------------------------------------------------- one form only

  /** Segments that are in order and joined are determined by the bytes they hold. */
  lemma {:induction false} Canonical(a: seq<Segment>, b: seq<Segment>)
    requires Sorted(a) && Joined(a) && Sorted(b) && Joined(b) && forall x :: In(a, x) <==> In(b, x)
    ensures a == b
    decreases |a|
  {
    hide In;
    if a == [] {
      NothingIn(a, b);
    } else if b == [] {
      NothingIn(b, a);
    } else {
      FirstBase(a, b);
      FirstBase(b, a);
      FirstEnd(a, b);
      FirstEnd(b, a);
      forall x ensures In(a[1..], x) <==> In(b[1..], x) {
        RestIn(a, x);
        RestIn(b, x);
      }
      Canonical(a[1..], b[1..]);
      assert a == [a[0]] + a[1..] && b == [b[0]] + b[1..];
    }
  }

  lemma NothingIn(a: seq<Segment>, b: seq<Segment>)
    requires Sorted(b) && a == [] && forall x :: In(a, x) <==> In(b, x)
    ensures b == []
  {
    if b != [] {
      assert Holds(b[0], b[0].base);
      assert In(b, b[0].base) && !In(a, b[0].base);
    }
  }

  lemma FirstBase(a: seq<Segment>, b: seq<Segment>)
    requires Sorted(a) && Sorted(b) && a != [] && b != [] && forall x :: In(a, x) <==> In(b, x)
    ensures b[0].base <= a[0].base
  {
    assert Holds(a[0], a[0].base);
    assert In(a, a[0].base) && In(b, a[0].base);
    var i :| 0 <= i < |b| && Holds(b[i], a[0].base);
    assert i > 0 ==> Before(b[0], b[i]);
  }

  lemma FirstEnd(a: seq<Segment>, b: seq<Segment>)
    requires Sorted(a) && Joined(a) && a != [] && b != [] && forall x :: In(a, x) <==> In(b, x)
    requires a[0].base == b[0].base
    ensures b[0].End() <= a[0].End()
  {
    var x := a[0].End();
    forall i | 0 <= i < |a| ensures !Holds(a[i], x) {
      assert i > 0 ==> Before(a[0], a[i]);
    }
    assert Holds(b[0], x) ==> In(b, x);
  }

  lemma RestIn(a: seq<Segment>, x: int)
    requires Sorted(a) && a != []
    ensures In(a[1..], x) <==> In(a, x) && x >= a[0].End()
  {
    if i :| 0 <= i < |a[1..]| && Holds(a[1..][i], x) {
      assert Holds(a[i + 1], x) && Before(a[0], a[i + 1]);
    }
    if i :| 0 <= i < |a| && Holds(a[i], x) && x >= a[0].End() {
      assert a[1..][i - 1] == a[i];
    }
  }

  // ---------------------------------------------------------------- joining

  /** The first thing free does: the segment that starts where `s` ends is taken in. */
  function JoinNext(segs: seq<Segment>, s: Segment): (seq<Segment>, Segment) {
    var i := Position(segs, s.End());
    if i < |segs| && segs[i].base == s.End() then (Remove(segs, i), Segment(s.base, s.size + segs[i].size))
    else (segs, s)
  }

  /** The second: the segment that ends where `s` starts is taken in. */
  function JoinPrev(segs: seq<Segment>, s: Segment): (seq<Segment>, Segment) {
    var p := Position(segs, s.base);
    if p > 0 && segs[p - 1].End() == s.base
    then (Remove(segs, p - 1), Segment(segs[p - 1].base, s.size + segs[p - 1].size))
    else (segs, s)
  }

  /** A segment was taken into `s`: the bytes are the same and nothing overlaps. */
  ghost predicate TakenIn(segs: seq<Segment>, s: Segment, segs': seq<Segment>, s': Segment) {
    && Sorted(segs') && Clear(segs', s') && s'.size > 0 && s'.base > 0 && (Joined(segs) ==> Joined(segs'))
    && (forall x :: In(segs, x) || Holds(s, x) <==> In(segs', x) || Holds(s', x))
    && (forall unit: nat | unit > 0 && Multiples(segs, unit) && s.size % unit == 0 ::
          Multiples(segs', unit) && s'.size % unit == 0)
  }

  lemma RemoveTaken(segs: seq<Segment>, s: Segment, i: nat, s': Segment)
    requires Sorted(segs) && Clear(segs, s) && s.size > 0 && i < |segs| && s'.size == s.size + segs[i].size
    requires if segs[i].base == s.End() then s'.base == s.base else segs[i].End() == s.base && s'.base == segs[i].base
    requires s.base > 0
    ensures TakenIn(segs, s, Remove(segs, i), s')
  {
    hide Remove, In, Multiples;
    RemoveOk(segs, i);
    RemoveClear(segs, i, s);
    forall x ensures In(segs, x) || Holds(s, x) <==> In(Remove(segs, i), x) || Holds(s', x) {
      RemoveIn(segs, i, x);
    }
    forall unit: nat | unit > 0 && Multiples(segs, unit) && s.size % unit == 0
      ensures Multiples(Remove(segs, i), unit) && s'.size % unit == 0
    {
      MultiplesAt(segs, unit, i);
      ModSum(s.size, segs[i].size, unit);
    }
  }

  lemma RemoveClear(segs: seq<Segment>, i: nat, s: Segment)
    requires Sorted(segs) && Clear(segs, s) && i < |segs|
    ensures Clear(Remove(segs, i), s) && Clear(Remove(segs, i), segs[i])
  {
    var r := Remove(segs, i);
    assert forall j | 0 <= j < |r| :: r[j] == segs[if j < i then j else j + 1];
  }

  lemma MultiplesAt(segs: seq<Segment>, unit: nat, i: nat)
    requires Multiples(segs, unit) && i < |segs|
    ensures unit > 0 && segs[i].size % unit == 0
  {
  }

  lemma NoneStarts(segs: seq<Segment>, x: nat)
    requires Sorted(segs) && var p := Position(segs, x); p < |segs| ==> segs[p].base != x
    ensures forall i | 0 <= i < |segs| :: segs[i].base != x
  {
    var p := Position(segs, x);
    forall i | 0 <= i < |segs| ensures segs[i].base != x {
      assert i > p ==> Before(segs[p], segs[i]);
    }
  }

  lemma NoneEnds(segs: seq<Segment>, x: nat)
    requires Sorted(segs) && var p := Position(segs, x); p > 0 ==> segs[p - 1].End() != x
    ensures forall i | 0 <= i < |segs| :: segs[i].End() != x
  {
    var p := Position(segs, x);
    forall i | 0 <= i < |segs| ensures segs[i].End() != x {
      assert i > p ==> Before(segs[p], segs[i]);
      assert i + 1 < p ==> Before(segs[i], segs[p - 1]);
    }
  }

  /** What a removed segment touched, no other does. */
  lemma RemoveLone(segs: seq<Segment>, i: nat, x: nat)
    requires Sorted(segs) && Joined(segs) && i < |segs|
    ensures forall j | 0 <= j < |Remove(segs, i)| ::
              Remove(segs, i)[j].base != segs[i].End() && Remove(segs, i)[j].End() != segs[i].base
    ensures (forall j | 0 <= j < |segs| :: segs[j].base != x) ==>
              forall j | 0 <= j < |Remove(segs, i)| :: Remove(segs, i)[j].base != x
  {
    var r := Remove(segs, i);
    forall j | 0 <= j < |r| ensures r[j].base != segs[i].End() && r[j].End() != segs[i].base {
      assert r[j] == segs[if j < i then j else j + 1];
    }
    assert forall j | 0 <= j < |r| :: r[j] == segs[if j < i then j else j + 1];
  }

  lemma NothingTaken(segs: seq<Segment>, s: Segment)
    requires Sorted(segs) && Clear(segs, s) && s.size > 0 && s.base > 0
    ensures TakenIn(segs, s, segs, s)
  {
    hide In;
  }

  lemma JoinNextOk(segs: seq<Segment>, s: Segment)
    requires Sorted(segs) && Clear(segs, s) && s.size > 0 && s.base > 0
    ensures var (segs', s') := JoinNext(segs, s);
            TakenIn(segs, s, segs', s')
            && (Joined(segs) ==> forall i | 0 <= i < |segs'| :: segs'[i].base != s'.End())
  {
    hide Remove, In, Position, TakenIn, Sorted, Clear;
    var i := Position(segs, s.End());
    if i < |segs| && segs[i].base == s.End() {
      RemoveTaken(segs, s, i, Segment(s.base, s.size + segs[i].size));
      if Joined(segs) {
        RemoveLone(segs, i, 0);
      }
    } else {
      NothingTaken(segs, s);
      NoneStarts(segs, s.End());
    }
  }

  lemma JoinPrevOk(segs: seq<Segment>, s: Segment)
    requires Sorted(segs) && Clear(segs, s) && s.size > 0 && s.base > 0
    ensures var (segs', s') := JoinPrev(segs, s);
            && TakenIn(segs, s, segs', s')
            && (Joined(segs) && (forall i | 0 <= i < |segs| :: segs[i].base != s.End()) ==> Lone(segs', s'))
  {
    hide Remove, In, Position, TakenIn, Sorted, Clear;
    var p := Position(segs, s.base);
    if p > 0 && segs[p - 1].End() == s.base {
      NotBoth(segs, s, p - 1);
      RemoveTaken(segs, s, p - 1, Segment(segs[p - 1].base, s.size + segs[p - 1].size));
      if Joined(segs) {
        RemoveLone(segs, p - 1, s.End());
      }
    } else {
      NothingTaken(segs, s);
      NoneEnds(segs, s.base);
    }
  }

  lemma NotBoth(segs: seq<Segment>, s: Segment, i: nat)
    requires Sorted(segs) && i < |segs| && segs[i].End() == s.base && s.size > 0
    ensures segs[i].base != s.End()
  {
  }

  /** The segments after a block was freed. */
  function Freed(segs: seq<Segment>, s: Segment): seq<Segment> {
    var (segs1, s1) := JoinNext(segs, s);
    var (segs2, s2) := JoinPrev(segs1, s1);
    Insert(segs2, s2)
  }

  /** Freeing adds exactly the bytes of the block, and keeps the segments in order and joined. */
  lemma FreedOk(segs: seq<Segment>, s: Segment)
    requires Sorted(segs) && Clear(segs, s) && s.size > 0 && s.base > 0
    ensures Sorted(Freed(segs, s)) && (Joined(segs) ==> Joined(Freed(segs, s)))
    ensures forall x :: In(Freed(segs, s), x) <==> In(segs, x) || Holds(s, x)
    ensures forall unit: nat | unit > 0 && Multiples(segs, unit) && s.size % unit == 0 ::
              Multiples(Freed(segs, s), unit)
  {
    hide In, Insert, JoinNext, JoinPrev, Sorted, Clear, Joined, Lone, Multiples, Holds;
    var (segs1, s1) := JoinNext(segs, s);
    JoinNextOk(segs, s);
    var (segs2, s2) := JoinPrev(segs1, s1);
    JoinPrevOk(segs1, s1);
    InsertOk(segs2, s2);
    forall x ensures In(Freed(segs, s), x) <==> In(segs, x) || Holds(s, x) {
      InsertIn(segs2, s2, x);
    }
    forall unit: nat | unit > 0 && Multiples(segs, unit) && s.size % unit == 0 ensures Multiples(Freed(segs, s), unit) {
      InsertMultiples(segs2, s2, unit);
    }
  }

  // ---------------------------------------------------------------- splitting

  /** The segments after `size` bytes were split from the front. */
  function Split(segs: seq<Segment>, size: nat): seq<Segment>
    requires segs != [] && size <= segs[0].size
  {
    if segs[0].size > size then [Segment(segs[0].base + size, segs[0].size - size)] + segs[1..] else segs[1..]
  }

  lemma SplitOk(segs: seq<Segment>, size: nat)
    requires Sorted(segs) && segs != [] && 0 < size <= segs[0].size
    ensures Sorted(Split(segs, size)) && (Joined(segs) ==> Joined(Split(segs, size)))
  {
    hide Split;
    SplitElements(segs, size);
  }

  lemma SplitElements(segs: seq<Segment>, size: nat)
    requires segs != [] && size <= segs[0].size
    ensures var r := Split(segs, size);
            if segs[0].size > size
            then |r| == |segs| && r[0] == Segment(segs[0].base + size, segs[0].size - size)
                 && forall i | 1 <= i < |r| :: r[i] == segs[i]
            else |r| == |segs| - 1 && forall i | 0 <= i < |r| :: r[i] == segs[i + 1]
  {
  }

  lemma SplitClear(segs: seq<Segment>, size: nat)
    requires Sorted(segs) && segs != [] && 0 < size <= segs[0].size
    ensures Clear(Split(segs, size), Segment(segs[0].base, size))
    ensures forall s | Clear(segs, s) :: Clear(Split(segs, size), s)
  {
    hide Split;
    SplitElements(segs, size);
  }

  lemma SplitIn(segs: seq<Segment>, size: nat, x: int)
    requires Sorted(segs) && segs != [] && 0 < size <= segs[0].size
    ensures In(segs, x) <==> In(Split(segs, size), x) || Holds(Segment(segs[0].base, size), x)
  {
    hide In;
    RestOrFirst(segs, x);
    var r := Split(segs, size);
    if segs[0].size > size {
      assert r[1..] == segs[1..];
      RestOrFirst(r, x);
    }
  }

  lemma RestOrFirst(segs: seq<Segment>, x: int)
    requires segs != []
    ensures In(segs, x) <==> In(segs[1..], x) || Holds(segs[0], x)
  {
    if i :| 0 <= i < |segs[1..]| && Holds(segs[1..][i], x) {
      assert Holds(segs[i + 1], x);
    }
    if i :| 0 <= i < |segs| && Holds(segs[i], x) && i > 0 {
      assert segs[1..][i - 1] == segs[i];
    }
  }

  lemma SplitMultiples(segs: seq<Segment>, size: nat, unit: nat)
    requires segs != [] && size <= segs[0].size && Multiples(segs, unit) && size % unit == 0
    ensures Multiples(Split(segs, size), unit)
  {
    ModDifference(segs[0].size, size, unit);
    assert segs == [segs[0]] + segs[1..];
  }

  /** Looking only at the front loses nothing while all sizes are multiples of a page: the front is
      too small for a page exactly if no page is free anywhere. */
  lemma FrontSuffices(segs: seq<Segment>, page: nat)
    requires Sorted(segs) && Multiples(segs, page)
    ensures (segs == [] || segs[0].size < page) <==> !exists a: nat :: AllFree(segs, a, page)
  {
    if segs != [] {
      AtLeast(segs[0].size, page);
      assert forall x | segs[0].base <= x < segs[0].base + page :: Holds(segs[0], x);
      assert AllFree(segs, segs[0].base, page);
    } else {
      forall a: nat ensures !AllFree(segs, a, page) {
        assert !In(segs, a);
      }
    }
  }

  predicate AllFree(segs: seq<Segment>, a: nat, size: nat) {
    forall x | a <= x < a + size :: In(segs, x)
  }

  lemma AtLeast(x: nat, b: nat)
    requires b > 0 && x > 0 && x % b == 0
    ensures x >= b
  {
  }

  // ---------------------------------------------------------------- the arena

  /** Allocated blocks: nowhere free, and apart from each other. */
  ghost predicate BlocksOk(segs: seq<Segment>, blocks: seq<Segment>) {
    && (forall k | 0 <= k < |blocks| :: blocks[k].size > 0 && blocks[k].base > 0 && Clear(segs, blocks[k]))
    && (forall j, k | 0 <= j < k < |blocks| :: Before(blocks[j], blocks[k]) || Before(blocks[k], blocks[j]))
  }

  class MemoryArena {
    var segments: seq<Segment>
    ghost var blocks: seq<Segment>
    ghost var registered: iset<int>

    /** Free segments and allocated blocks are apart and together are the registered bytes. */
    ghost predicate Valid()
      reads this
    {
      && Sorted(segments) && BlocksOk(segments, blocks)
      && forall x :: x in registered <==> In(segments, x) || In(blocks, x)
    }

    constructor ()
      ensures Valid() && segments == [] && blocks == [] && registered == iset{}
    {
      segments, blocks, registered := [], [], iset{};
    }

    /** Takes `size` bytes from the front segment; zero if it is too small. */
    method Alloc(size: nat) returns (r: nat)
      requires Valid() && size > 0
      modifies this`segments, this`blocks
      ensures Valid()
      ensures r == 0 <==> old(segments) == [] || old(segments)[0].size < size
      ensures r == 0 ==> segments == old(segments) && blocks == old(blocks)
      ensures r != 0 ==> r == old(segments)[0].base && blocks == old(blocks) + [Segment(r, size)]
                         && segments == Split(old(segments), size)
      ensures r != 0 ==> forall x :: In(old(segments), x) <==> In(segments, x) || Holds(Segment(r, size), x)
      ensures Joined(old(segments)) ==> Joined(segments)
      ensures forall unit: nat | unit > 0 && Multiples(old(segments), unit) && size % unit == 0 ::
                Multiples(segments, unit)
    {
      hide In, Joined, Multiples, Clear, Holds;
      if segments == [] {
        return 0;
      }
      var seg := segments[0];
      if seg.size < size {
        return 0;
      }
      SplitOk(segments, size);
      SplitBlocks(segments, blocks, size);
      forall x ensures In(segments, x) <==> In(Split(segments, size), x) || Holds(Segment(seg.base, size), x) {
        SplitIn(segments, size, x);
      }
      forall unit: nat | unit > 0 && Multiples(segments, unit) && size % unit == 0
        ensures Multiples(Split(segments, size), unit)
      {
        SplitMultiples(segments, size, unit);
      }
      forall x
        ensures In(blocks + [Segment(seg.base, size)], x) <==> In(blocks, x) || Holds(Segment(seg.base, size), x)
      {
        AppendIn(blocks, Segment(seg.base, size), x);
      }
      blocks := blocks + [Segment(seg.base, size)];
      if seg.size > size {
        segments := [Segment(seg.base + size, seg.size - size)] + segments[1..];
      } else {
        segments := segments[1..];
      }
      return seg.base;
    }

    /** Returns the `k`-th allocated block. */
    method Free(addr: nat, size: nat, ghost k: nat)
      requires Valid() && k < |blocks| && blocks[k] == Segment(addr, size)
      modifies this`segments, this`blocks
      ensures Valid() && blocks == Remove(old(blocks), k) && segments == Freed(old(segments), Segment(addr, size))
      ensures forall x :: In(segments, x) <==> In(old(segments), x) || Holds(Segment(addr, size), x)
      ensures Joined(old(segments)) ==> Joined(segments)
      ensures forall unit: nat | unit > 0 && Multiples(old(segments), unit) && size % unit == 0 ::
                Multiples(segments, unit)
    {
      hide In, Joined, Multiples, Clear, Holds, Remove, Insert, Sorted, BlocksOk;
      BlockAt(segments, blocks, k);
      FreedOk(segments, Segment(addr, size));
      FreedBlocks(segments, blocks, k);
      forall x ensures In(blocks, x) <==> In(Remove(blocks, k), x) || Holds(Segment(addr, size), x) {
        RemoveIn(blocks, k, x);
      }
      var (a, n) := (addr, size);
      var i := Position(segments, a + n);
      if i < |segments| && segments[i].base == a + n {
        n := n + segments[i].size;
        segments := Remove(segments, i);
      }
      var p := Position(segments, a);
      if p > 0 && segments[p - 1].End() == a {
        a := segments[p - 1].base;
        n := n + segments[p - 1].size;
        segments := Remove(segments, p - 1);
      }
      segments := Insert(segments, Segment(a, n));
      blocks := Remove(blocks, k);
      assert segments == Freed(old(segments), Segment(addr, size));
    }

    /** Registers new bytes. They are not joined with others. */
    method AddToFreelist(seg: Segment)
      requires Valid() && seg.size > 0 && seg.base > 0 && Clear(segments, seg) && Clear(blocks, seg)
      modifies this
      ensures Valid() && blocks == old(blocks) && segments == Insert(old(segments), seg)
      ensures forall x :: x in registered <==> x in old(registered) || Holds(seg, x)
    {
      hide In, Holds, Insert;
      InsertOk(segments, seg);
      InsertBlocks(segments, blocks, seg);
      forall x ensures In(Insert(segments, seg), x) <==> In(segments, x) || Holds(seg, x) {
        InsertIn(segments, seg, x);
      }
      segments := Insert(segments, seg);
      registered := registered + iset x | Holds(seg, x);
    }

    /** Freeing the block just allocated gives back the very same segments. */
    method AllocAndFree(size: nat)
      requires Valid() && size > 0 && Joined(segments)
      modifies this`segments, this`blocks
      ensures Valid() && segments == old(segments) && blocks == old(blocks)
    {
      hide In, Joined, Holds, BlocksOk;
      var r := Alloc(size);
      if r != 0 {
        Free(r, size, |blocks| - 1);
        Canonical(segments, old(segments));
      }
    }
  }

  lemma AppendIn(blocks: seq<Segment>, s: Segment, x: int)
    ensures In(blocks + [s], x) <==> In(blocks, x) || Holds(s, x)
  {
    var r := blocks + [s];
    assert r[|blocks|] == s && forall i | 0 <= i < |blocks| :: r[i] == blocks[i];
  }

  lemma SplitBlocks(segs: seq<Segment>, blocks: seq<Segment>, size: nat)
    requires Sorted(segs) && BlocksOk(segs, blocks) && segs != [] && 0 < size <= segs[0].size
    ensures BlocksOk(Split(segs, size), blocks + [Segment(segs[0].base, size)])
  {
    hide Split, Clear;
    SplitClear(segs, size);
    var b := Segment(segs[0].base, size);
    forall k | 0 <= k < |blocks| ensures Before(blocks[k], b) || Before(b, blocks[k]) {
      ClearAt(segs, blocks[k], 0);
    }
    assert b.base > 0;
  }

  lemma ClearAt(segs: seq<Segment>, s: Segment, i: nat)
    requires Clear(segs, s) && i < |segs|
    ensures Before(segs[i], s) || Before(s, segs[i])
  {
  }

  lemma BlockAt(segs: seq<Segment>, blocks: seq<Segment>, k: nat)
    requires BlocksOk(segs, blocks) && k < |blocks|
    ensures blocks[k].size > 0 && blocks[k].base > 0 && Clear(segs, blocks[k])
  {
  }

  /** What was apart from the segments and from the freed block is apart from the result. */
  lemma FreedBlocks(segs: seq<Segment>, blocks: seq<Segment>, k: nat)
    requires Sorted(segs) && BlocksOk(segs, blocks) && k < |blocks|
    ensures BlocksOk(Freed(segs, blocks[k]), Remove(blocks, k))
  {
    hide Freed, In, Clear;
    var (s, r) := (blocks[k], Remove(blocks, k));
    FreedOk(segs, s);
    forall j | 0 <= j < |r|
      ensures r[j].size > 0 && r[j].base > 0 && Clear(Freed(segs, s), r[j])
    {
      var b := blocks[if j < k then j else j + 1];
      assert r[j] == b && (Before(b, s) || Before(s, b));
      forall x | Holds(b, x) ensures !In(Freed(segs, s), x) {
        ClearIn(segs, b, x);
      }
      NoneIn(Freed(segs, s), b);
    }
    assert forall j | 0 <= j < |r| :: r[j] == blocks[if j < k then j else j + 1];
  }

  lemma ClearIn(segs: seq<Segment>, s: Segment, x: int)
    requires Clear(segs, s) && Holds(s, x)
    ensures !In(segs, x)
  {
  }

  /** A block none of whose bytes is free overlaps no segment. */
  lemma NoneIn(segs: seq<Segment>, s: Segment)
    requires Sorted(segs) && s.size > 0 && forall x | Holds(s, x) :: !In(segs, x)
    ensures Clear(segs, s)
  {
    forall i | 0 <= i < |segs| ensures Before(segs[i], s) || Before(s, segs[i]) {
      var x := if segs[i].base >= s.base then segs[i].base else s.base;
      assert Holds(segs[i], x) ==> In(segs, x);
    }
  }

  lemma InsertBlocks(segs: seq<Segment>, blocks: seq<Segment>, s: Segment)
    requires Sorted(segs) && BlocksOk(segs, blocks) && s.size > 0 && s.base > 0 && Clear(segs, s) && Clear(blocks, s)
    ensures BlocksOk(Insert(segs, s), blocks)
  {
    hide Insert;
    InsertElements(segs, s);
  }

  // ---------------------------------------------------------------- spans

  const PAGE_SIZE_LARGE: nat := 0x20_0000

  /** A part of a span, for the arena of large or of small pages. */
  datatype Piece = Piece(large: bool, start: int, end: int)

  /** What a span is registered as. */
  function Pieces(start: nat, end: nat): seq<Piece> {
    var largeStart := AlignUp(start, PAGE_SIZE_LARGE);
    var largeEnd := AlignDown(end, PAGE_SIZE_LARGE);
    (if start != largeStart then [Piece(false, start, largeStart)] else []) +
    (if largeStart != largeEnd then [Piece(true, largeStart, largeEnd)] else []) +
    (if end != largeEnd then [Piece(false, largeEnd, end)] else [])
  }

  /** The pieces follow one another from `start` to `end`, and large ones are on large pages. */
  predicate Partitions(pieces: seq<Piece>, start: int, end: int)
    decreases |pieces|
  {
    if pieces == [] then start == end
    else
      && pieces[0].start == start && start < pieces[0].end <= end
      && (pieces[0].large ==> start % PAGE_SIZE_LARGE == 0 && pieces[0].end % PAGE_SIZE_LARGE == 0)
      && Partitions(pieces[1..], pieces[0].end, end)
  }

  /** A span is divided exactly if and only if it reaches a 2 MiB boundary. */
  lemma SpanExact(start: nat, end: nat)
    requires start <= end
    ensures Partitions(Pieces(start, end), start, end) <==>
            AlignUp(start, PAGE_SIZE_LARGE) <= AlignDown(end, PAGE_SIZE_LARGE)
  {
    hide AlignUp, AlignDown;
    Aligned(start, end);
    var (ls, le) := (AlignUp(start, PAGE_SIZE_LARGE), AlignDown(end, PAGE_SIZE_LARGE));
    var a := if start != ls then [Piece(false, start, ls)] else [];
    var b := if ls != le then [Piece(true, ls, le)] else [];
    var c := if end != le then [Piece(false, le, end)] else [];
    var ps := a + b + c;
    if ls <= le {
      TailPartitions(le, end);
      assert b + c != [] && ls != le ==> (b + c)[1..] == c;
      assert ls == le ==> b + c == c;
      assert Partitions(b + c, ls, end);
      assert start != ls ==> ps[1..] == b + c;
      assert start == ls ==> ps == b + c;
    } else if start != ls {
      assert ps[0] == Piece(false, start, ls);
    } else {
      assert ps[0] == Piece(true, ls, le);
    }
  }

  lemma Aligned(start: nat, end: nat)
    ensures start <= AlignUp(start, PAGE_SIZE_LARGE) && AlignUp(start, PAGE_SIZE_LARGE) % PAGE_SIZE_LARGE == 0
    ensures AlignDown(end, PAGE_SIZE_LARGE) <= end && AlignDown(end, PAGE_SIZE_LARGE) % PAGE_SIZE_LARGE == 0
  {
  }

  lemma TailPartitions(le: int, end: int)
    requires le <= end
    ensures Partitions(if end != le then [Piece(false, le, end)] else [], le, end)
  {
    if end != le {
      assert [Piece(false, le, end)][1..] == [];
    }
  }

  /** A span inside one large page is registered beyond its end. */
  lemma SpanTooSmall()
    ensures !Partitions(Pieces(0x1000, 0x3000), 0x1000, 0x3000)
    ensures Piece(false, 0x1000, PAGE_SIZE_LARGE) in Pieces(0x1000, 0x3000)
  {
    SpanExact(0x1000, 0x3000);
    assert AlignUp(0x1000, PAGE_SIZE_LARGE) == PAGE_SIZE_LARGE && AlignDown(0x3000, PAGE_SIZE_LARGE) == 0;
    assert Pieces(0x1000, 0x3000)[0] == Piece(false, 0x1000, PAGE_SIZE_LARGE);
  }

  /** The segments with those from `start` to `end`, if there are any. */
  function With(segs: seq<Segment>, start: nat, end: nat): seq<Segment>
    requires start <= end
  {
    if start == end then segs else Insert(segs, Segment(start, end - start))
  }

  /** Registers a span: its large pages with one arena, what is left before and after with the other. */
  method AddSpan(small: MemoryArena, large: MemoryArena, start: nat, size: nat)
    requires small != large && small.Valid() && large.Valid() && start > 0
    requires AlignUp(start, PAGE_SIZE_LARGE) <= AlignDown(start + size, PAGE_SIZE_LARGE)
    requires Clear(small.segments, Segment(start, size)) && Clear(small.blocks, Segment(start, size))
    requires Clear(large.segments, Segment(start, size)) && Clear(large.blocks, Segment(start, size))
    modifies small, large
    ensures small.Valid() && large.Valid() && small.blocks == old(small.blocks) && large.blocks == old(large.blocks)
    ensures var (ls, le) := (AlignUp(start, PAGE_SIZE_LARGE), AlignDown(start + size, PAGE_SIZE_LARGE));
            && (forall x :: x in large.registered <==> x in old(large.registered) || ls <= x < le)
            && (forall x :: x in small.registered <==>
                  x in old(small.registered) || start <= x < ls || le <= x < start + size)
            && large.segments == With(old(large.segments), ls, le)
            && small.segments == With(With(old(small.segments), start, ls), le, start + size)
  {
    hide AlignUp, AlignDown, In, Sorted, BlocksOk, Insert;
    Aligned(start, start + size);
    var end := start + size;
    var largeStart := AlignUp(start, PAGE_SIZE_LARGE);
    var largeEnd := AlignDown(end, PAGE_SIZE_LARGE);
    PartClear(small.segments, Segment(start, size));
    PartClear(small.blocks, Segment(start, size));
    PartClear(large.segments, Segment(start, size));
    PartClear(large.blocks, Segment(start, size));
    if start != largeStart {
      InsertClear(small.segments, Segment(start, largeStart - start), Segment(largeEnd, end - largeEnd));
      small.AddToFreelist(Segment(start, largeStart - start));
    }
    if largeStart != largeEnd {
      large.AddToFreelist(Segment(largeStart, largeEnd - largeStart));
    }
    if end != largeEnd {
      small.AddToFreelist(Segment(largeEnd, end - largeEnd));
    }
  }

  lemma PartClear(segs: seq<Segment>, s: Segment)
    requires Clear(segs, s)
    ensures forall t: Segment | s.base <= t.base && t.End() <= s.End() :: Clear(segs, t)
  {
  }

  lemma InsertClear(segs: seq<Segment>, s: Segment, t: Segment)
    requires Clear(segs, t) && Before(s, t)
    ensures Clear(Insert(segs, s), t)
  {
    hide Insert;
    InsertElements(segs, s);
  }
}
