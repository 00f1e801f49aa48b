/** The small object allocator: segments of 2 MiB in pages of 64 KiB, each page cut into blocks of one
    size whose free ones are linked through their first word. */
module Malloc {
  import opened Bytes
  import opened Arith

  const SEGMENT_SIZE: nat := 0x20_0000
  const PAGE_SIZE: nat := 0x1_0000
  const NR_PAGES: nat := 32
  const METADATA_SIZE: nat := 1304
  const SMALL_OBJ_SIZE_MAX: nat := 1024
  const NUM_SIZE_CLASSES: nat := 128
  const MAX_BLOCK: nat := 1016

  /** A segment starts with three words and a record of five words for each of its pages. */
  lemma Layout()
    ensures METADATA_SIZE == 3 * 8 + NR_PAGES * (5 * 8) && NR_PAGES * PAGE_SIZE == SEGMENT_SIZE
    ensures NUM_SIZE_CLASSES == (SMALL_OBJ_SIZE_MAX + 7) / 8
  {
  }

  // ---------------------------------------------------------------- sizes

  function ToBlockSize(size: nat): nat {
    (size + 7) / 8 * 8
  }

  function ToSizeClass(size: nat): nat {
    ToBlockSize(size) / 8
  }

  /** A block holds its object, by less than 8 bytes to spare. */
  lemma BlockFits(size: nat)
    ensures size <= ToBlockSize(size) < size + 8 && ToBlockSize(size) % 8 == 0
    ensures ToSizeClass(size) * 8 == ToBlockSize(size)
  {
  }

  /** Of the sizes taken for small ones, those above 1016 have a class the heap has no page for. */
  lemma ClassInRange(size: nat)
    requires size < SMALL_OBJ_SIZE_MAX
    ensures ToSizeClass(size) < NUM_SIZE_CLASSES <==> size <= MAX_BLOCK
  {
  }

  lemma ClassOutOfRange()
    ensures 1017 < SMALL_OBJ_SIZE_MAX && ToSizeClass(1017) == NUM_SIZE_CLASSES
  {
  }

  // ---------------------------------------------------------------- pages and blocks

  /** A page, by its segment's address and its index there. */
  datatype Ref = Ref(seg: nat, idx: nat)

  datatype Meta = Meta(free: nat, used: nat, capacity: nat, blockSize: nat)

  predicate RefOk(r: Ref) {
    r.seg % SEGMENT_SIZE == 0 && r.seg > 0 && r.idx < NR_PAGES
  }

  /** Where the blocks of a page start: the metadata takes the start of the first page. */
  function Base(r: Ref): nat {
    if r.idx == 0 then r.seg + METADATA_SIZE else r.seg + r.idx * PAGE_SIZE
  }

  function Room(r: Ref): nat {
    if r.idx == 0 then PAGE_SIZE - METADATA_SIZE else PAGE_SIZE
  }

  function Addr(r: Ref, blockSize: nat, k: nat): nat {
    Base(r) + k * blockSize
  }

  function SegmentOf(a: nat): nat {
    a - a % SEGMENT_SIZE
  }

  function PageOf(a: nat): Ref {
    Ref(SegmentOf(a), (a - SegmentOf(a)) / PAGE_SIZE)
  }

  /** `a` is one of the blocks of a page. */
  predicate IsBlock(r: Ref, blockSize: nat, capacity: nat, a: nat) {
    && blockSize > 0 && a >= Base(r)
    && var k := (a - Base(r)) / blockSize;
       k < capacity && a == Addr(r, blockSize, k)
  }

  /** A page's blocks have a size of some class, and are as many as fit. */
  predicate Cut(r: Ref, blockSize: nat, capacity: nat) {
    8 <= blockSize <= MAX_BLOCK && blockSize % 8 == 0 && capacity == Room(r) / blockSize
  }

  lemma AddrIsBlock(r: Ref, blockSize: nat, capacity: nat, k: nat)
    requires blockSize > 0 && k < capacity
    ensures IsBlock(r, blockSize, capacity, Addr(r, blockSize, k))
  {
    DivUnique(k, blockSize);
  }

  function IndexOf(r: Ref, blockSize: nat, capacity: nat, a: nat): (k: nat)
    requires IsBlock(r, blockSize, capacity, a)
    ensures k < capacity && a == Addr(r, blockSize, k)
  {
    (a - Base(r)) / blockSize
  }

  lemma AddrInjective(r: Ref, blockSize: nat, j: nat, k: nat)
    requires j < k
    ensures Addr(r, blockSize, j) + blockSize <= Addr(r, blockSize, k)
  {
    Apart(j, k, blockSize);
  }

  /** A block lies in its page's room, on an 8-byte boundary. */
  lemma BlockPlace(r: Ref, blockSize: nat, capacity: nat, a: nat)
    requires RefOk(r) && Cut(r, blockSize, capacity) && IsBlock(r, blockSize, capacity, a)
    ensures Base(r) <= a && a + blockSize <= Base(r) + Room(r) && a % 8 == 0
  {
    hide IsBlock, Base, Room, RefOk;
    var k := IndexOf(r, blockSize, capacity, a);
    Fits(Room(r), blockSize);
    Apart(k, capacity, blockSize);
    Eighths(k, blockSize);
    BaseAligned(r);
    ModSum(Base(r), k * blockSize, 8);
  }

  lemma Fits(room: nat, blockSize: nat)
    requires blockSize > 0
    ensures room / blockSize * blockSize <= room
  {
  }

  lemma Eighths(k: nat, blockSize: nat)
    requires blockSize % 8 == 0
    ensures k * blockSize % 8 == 0
  {
    ModUnique(k * blockSize, k * (blockSize / 8), 8, 0);
  }

  lemma BaseAligned(r: Ref)
    requires RefOk(r)
    ensures Base(r) % 8 == 0
  {
  }

  /** From the address of a block its page is recovered. */
  lemma Recovered(r: Ref, blockSize: nat, capacity: nat, a: nat)
    requires RefOk(r) && Cut(r, blockSize, capacity) && IsBlock(r, blockSize, capacity, a)
    ensures PageOf(a) == r && a > 0
  {
    hide IsBlock;
    BlockPlace(r, blockSize, capacity, a);
    PageRecovered(r, a);
  }

  lemma PageRecovered(r: Ref, a: nat)
    requires RefOk(r) && Base(r) <= a < Base(r) + Room(r)
    ensures PageOf(a) == r
  {
    ModUnique(a, r.seg / SEGMENT_SIZE, SEGMENT_SIZE, a - r.seg);
  }

  /** Blocks of one page do not overlap. */
  lemma BlocksApart(r: Ref, blockSize: nat, capacity: nat, a: nat, b: nat)
    requires IsBlock(r, blockSize, capacity, a) && IsBlock(r, blockSize, capacity, b) && a != b
    ensures a + blockSize <= b || b + blockSize <= a
  {
    hide IsBlock;
    var (j, k) := (IndexOf(r, blockSize, capacity, a), IndexOf(r, blockSize, capacity, b));
    if j < k {
      AddrInjective(r, blockSize, j, k);
    } else {
      AddrInjective(r, blockSize, k, j);
    }
  }

  lemma PagesDisjoint(r: Ref, r': Ref)
    requires RefOk(r) && RefOk(r') && r != r'
    ensures Base(r) + Room(r) <= Base(r') || Base(r') + Room(r') <= Base(r)
  {
    hide Base, Room;
    PageRange(r);
    PageRange(r');
    var (q, q') := (r.seg / SEGMENT_SIZE, r'.seg / SEGMENT_SIZE);
    if q < q' {
      Apart(q, q', SEGMENT_SIZE);
    } else if q' < q {
      Apart(q', q, SEGMENT_SIZE);
    } else if r.idx < r'.idx {
      Apart(r.idx, r'.idx, PAGE_SIZE);
    } else {
      Apart(r'.idx, r.idx, PAGE_SIZE);
    }
  }

  lemma PageRange(r: Ref)
    requires RefOk(r)
    ensures r.seg + r.idx * PAGE_SIZE <= Base(r) && Base(r) + Room(r) == r.seg + r.idx * PAGE_SIZE + PAGE_SIZE
    ensures r.idx * PAGE_SIZE + PAGE_SIZE <= SEGMENT_SIZE && r.seg == r.seg / SEGMENT_SIZE * SEGMENT_SIZE
  {
  }

  // ---------------------------------------------------------------- free lists

  /** Memory, by the addresses of its 8-byte words; words never written are zero. */
  type Words = map<nat, nat>

  /** The word that holds the byte at `a`. */
  function WordOf(a: nat): nat {
    a - a % 8
  }

  function Load(words: Words, a: nat): nat {
    if a in words then words[a] else 0
  }

  /** The list linked from `head`. */
  predicate Chain(words: Words, head: nat, list: seq<nat>)
    decreases |list|
  {
    if list == [] then head == 0
    else head == list[0] && head != 0 && Chain(words, Load(words, head), list[1..])
  }

  lemma {:induction false} ChainFrame(words: Words, words': Words, head: nat, list: seq<nat>)
    requires Chain(words, head, list) && forall a | a in list :: Load(words', a) == Load(words, a)
    ensures Chain(words', head, list)
    decreases |list|
  {
    hide Load;
    if list != [] {
      assert list[0] in list && forall a | a in list[1..] :: a in list;
      ChainFrame(words, words', Load(words, head), list[1..]);
    }
  }

  lemma ChainPush(words: Words, head: nat, list: seq<nat>, a: nat)
    requires Chain(words, head, list) && a != 0 && a !in list
    ensures Chain(words[a := head], a, [a] + list)
  {
    ChainFrame(words, words[a := head], head, list);
    assert ([a] + list)[1..] == list;
  }

  /** A page's record agrees with the list of its free blocks. */
  ghost predicate PageOk(words: Words, r: Ref, m: Meta, list: seq<nat>) {
    if m.blockSize == 0 then m == Meta(0, 0, 0, 0) && list == []
    else
      && Cut(r, m.blockSize, m.capacity) && Chain(words, m.free, list) && m.used + |list| == m.capacity
      && Distinct(list) && forall a | a in list :: IsBlock(r, m.blockSize, m.capacity, a)
  }

  /** Every block of a page is either free or live. */
  ghost predicate Partition(r: Ref, m: Meta, list: seq<nat>, live: map<nat, nat>) {
    forall a | IsBlock(r, m.blockSize, m.capacity, a) :: a in live <==> a !in list
  }

  // ---------------------------------------------------------------- the heap

  /** The words, the pages' records, the page in use for each class, the queue of segments, the
      segments the system will hand out; and each page's free blocks, and the live objects' sizes. */
  datatype State = State(words: Words, meta: map<Ref, Meta>, pages: seq<Option<Ref>>, queue: seq<nat>, os: seq<nat>,
                         lists: map<Ref, seq<nat>>, live: map<nat, nat>)

  ghost predicate SegmentsOk(meta: map<Ref, Meta>) {
    forall r | r in meta :: RefOk(r) && forall j: nat | j < NR_PAGES :: Ref(r.seg, j) in meta
  }

  ghost predicate PagesOk(s: State) {
    forall r | r in s.meta ::
      r in s.lists && PageOk(s.words, r, s.meta[r], s.lists[r]) && Partition(r, s.meta[r], s.lists[r], s.live)
  }

  /** Every live object is a block of the page its address gives, and fits it. */
  ghost predicate LiveOk(meta: map<Ref, Meta>, live: map<nat, nat>) {
    forall a | a in live ::
      && PageOf(a) in meta && live[a] <= meta[PageOf(a)].blockSize
      && IsBlock(PageOf(a), meta[PageOf(a)].blockSize, meta[PageOf(a)].capacity, a)
  }

  ghost predicate TableOk(meta: map<Ref, Meta>, pages: seq<Option<Ref>>) {
    && |pages| == NUM_SIZE_CLASSES
    && forall c | 0 <= c < NUM_SIZE_CLASSES && pages[c].Some? ::
         pages[c].value in meta && meta[pages[c].value].blockSize == 8 * c > 0
  }

  ghost predicate QueueOk(meta: map<Ref, Meta>, queue: seq<nat>) {
    |queue| <= 1 && forall k | 0 <= k < |queue| :: Ref(queue[k], 0) in meta
  }

  /** The system hands out zeroed segments on 2 MiB boundaries, each once. */
  ghost predicate SystemOk(s: State) {
    && (forall k | 0 <= k < |s.os| ::
          && s.os[k] % SEGMENT_SIZE == 0 && s.os[k] > 0 && (forall j :: Ref(s.os[k], j) !in s.meta)
          && forall a | SegmentOf(a) == s.os[k] :: Load(s.words, a) == 0)
    && Distinct(s.os)
  }

  ghost predicate HeapOk(s: State) {
    && SegmentsOk(s.meta) && PagesOk(s) && LiveOk(s.meta, s.live) && TableOk(s.meta, s.pages)
    && QueueOk(s.meta, s.queue) && SystemOk(s)
  }

  /** An object lies between the metadata of its segment and the end of the segment. */
  predicate Clear(a: nat, size: nat) {
    METADATA_SIZE <= a % SEGMENT_SIZE && a % SEGMENT_SIZE + size <= SEGMENT_SIZE
  }

  /** What a caller relies on: live objects are aligned, big enough, clear of the metadata, and none
      overlaps another. */
  ghost predicate Separate(live: map<nat, nat>) {
    && (forall a | a in live :: a % 8 == 0 && a > 0 && Clear(a, live[a]))
    && (forall a, b | a in live && b in live && a != b :: a + live[a] <= b || b + live[b] <= a)
  }

  lemma LiveBlock(s: State, a: nat)
    requires HeapOk(s) && a in s.live
    ensures var r := PageOf(a);
            && r in s.meta && RefOk(r) && s.live[a] <= s.meta[r].blockSize
            && Cut(r, s.meta[r].blockSize, s.meta[r].capacity)
            && IsBlock(r, s.meta[r].blockSize, s.meta[r].capacity, a)
            && r in s.lists && a !in s.lists[r] && s.meta[r].blockSize > 0
  {
    hide Cut, SystemOk, TableOk, QueueOk, Chain, Distinct, PageOf;
  }

  lemma HeapSeparate(s: State)
    requires HeapOk(s)
    ensures Separate(s.live)
  {
    hide HeapOk, IsBlock, Cut, PageOf;
    forall a | a in s.live ensures a % 8 == 0 && a > 0 && Clear(a, s.live[a]) {
      LiveBlock(s, a);
      var r := PageOf(a);
      BlockPlace(r, s.meta[r].blockSize, s.meta[r].capacity, a);
      BlockInSegment(r, s.meta[r].blockSize, a);
    }
    forall a, b | a in s.live && b in s.live && a != b ensures a + s.live[a] <= b || b + s.live[b] <= a {
      LiveBlock(s, a);
      LiveBlock(s, b);
      var (r, r') := (PageOf(a), PageOf(b));
      if r == r' {
        BlocksApart(r, s.meta[r].blockSize, s.meta[r].capacity, a, b);
      } else {
        BlockPlace(r, s.meta[r].blockSize, s.meta[r].capacity, a);
        BlockPlace(r', s.meta[r'].blockSize, s.meta[r'].capacity, b);
        PagesDisjoint(r, r');
      }
    }
  }

  lemma BlockInSegment(r: Ref, blockSize: nat, a: nat)
    requires RefOk(r) && Base(r) <= a && a + blockSize <= Base(r) + Room(r)
    ensures a > 0 && (blockSize > 0 ==> Clear(a, blockSize))
  {
    if blockSize > 0 {
      ModUnique(a, r.seg / SEGMENT_SIZE, SEGMENT_SIZE, a - r.seg);
    }
  }

  // ---------------------------------------------------------------- steps of the heap

  /** The state after the first free block of a page became an object of a size. */
  ghost function Taken(s: State, r: Ref, size: nat): State
    requires r in s.meta && r in s.lists && s.lists[r] != []
  {
    var m := s.meta[r];
    s.(meta := s.meta[r := m.(free := Load(s.words, m.free), used := m.used + 1)],
       lists := s.lists[r := s.lists[r][1..]],
       live := s.live[m.free := size])
  }

  lemma FirstFree(s: State, r: Ref)
    requires HeapOk(s) && r in s.meta
    ensures r in s.lists && RefOk(r) && (s.meta[r].free == 0 <==> s.lists[r] == [])
    ensures s.lists[r] != [] ==>
              && s.meta[r].free == s.lists[r][0] && s.meta[r].free !in s.live && s.meta[r].blockSize > 0
              && PageOf(s.meta[r].free) == r && s.meta[r].used < s.meta[r].capacity
              && IsBlock(r, s.meta[r].blockSize, s.meta[r].capacity, s.meta[r].free)
    ensures s.lists[r] == [] ==> s.meta[r].used == s.meta[r].capacity
  {
    hide IsBlock, Cut, PageOf, SystemOk, TableOk, QueueOk, LiveOk;
    var m := s.meta[r];
    assert PageOk(s.words, r, m, s.lists[r]) && Partition(r, m, s.lists[r], s.live);
    if s.lists[r] != [] {
      assert s.lists[r][0] in s.lists[r];
      Recovered(r, m.blockSize, m.capacity, m.free);
    }
  }

  /** The page in question stays in order. */
  lemma TakenPage(s: State, r: Ref, size: nat)
    requires HeapOk(s) && r in s.meta && r in s.lists && s.lists[r] != []
    ensures var s' := Taken(s, r, size);
            PageOk(s'.words, r, s'.meta[r], s'.lists[r]) && Partition(r, s'.meta[r], s'.lists[r], s'.live)
  {
    hide IsBlock, Cut, PageOf, SystemOk, TableOk, QueueOk, LiveOk;
    FirstFree(s, r);
    var list := s.lists[r];
    assert PageOk(s.words, r, s.meta[r], list) && Partition(r, s.meta[r], list, s.live);
    assert forall a | a in list[1..] :: a in list;
    assert forall a | a in list :: a == list[0] || a in list[1..];
  }

  /** Other pages stay in order when the objects of one page change. */
  lemma OtherPage(s: State, s': State, r: Ref, p: Ref, a: nat)
    requires HeapOk(s) && p in s.meta && p != r && PageOf(a) == r
    requires p in s'.meta && s'.meta[p] == s.meta[p] && p in s.lists && p in s'.lists && s'.lists[p] == s.lists[p]
    requires forall b | b != a :: b in s'.live <==> b in s.live
    requires forall b | b != a :: Load(s'.words, b) == Load(s.words, b)
    ensures PageOk(s'.words, p, s'.meta[p], s'.lists[p]) && Partition(p, s'.meta[p], s'.lists[p], s'.live)
  {
    hide IsBlock, Cut, PageOf, SystemOk, TableOk, QueueOk, LiveOk, Load;
    var (m, list) := (s.meta[p], s.lists[p]);
    assert PageOk(s.words, p, m, list) && Partition(p, m, list, s.live) && RefOk(p);
    if m.blockSize > 0 {
      forall b | IsBlock(p, m.blockSize, m.capacity, b) ensures b != a {
        Recovered(p, m.blockSize, m.capacity, b);
      }
      ChainFrame(s.words, s'.words, m.free, list);
    } else {
      NoBlocks(p, m);
    }
  }

  lemma NoBlocks(r: Ref, m: Meta)
    requires m.blockSize == 0
    ensures forall a :: !IsBlock(r, m.blockSize, m.capacity, a)
  {
  }

  /** Changing records but not the blocks they are cut into keeps the rest of the heap in order. */
  ghost predicate SameCut(meta: map<Ref, Meta>, meta': map<Ref, Meta>) {
    && (forall r | r in meta' :: r in meta)
    && (forall r | r in meta ::
          r in meta' && meta'[r].blockSize == meta[r].blockSize && meta'[r].capacity == meta[r].capacity)
  }

  lemma SameCutOk(s: State, s': State)
    requires HeapOk(s) && SameCut(s.meta, s'.meta)
    requires s'.pages == s.pages && s'.queue == s.queue && s'.os == s.os
    requires forall a | Load(s'.words, a) != Load(s.words, a) :: PageOf(a) in s.meta
    ensures SegmentsOk(s'.meta) && TableOk(s'.meta, s'.pages) && QueueOk(s'.meta, s'.queue) && SystemOk(s')
  {
    hide IsBlock, Cut, PagesOk, LiveOk, Load, RefOk;
    forall k, a | 0 <= k < |s.os| && SegmentOf(a) == s.os[k] ensures Load(s'.words, a) == 0 {
      assert Ref(s.os[k], PageOf(a).idx) !in s.meta;
    }
  }

  lemma TakenOk(s: State, r: Ref, size: nat)
    requires HeapOk(s) && r in s.meta && r in s.lists && s.lists[r] != [] && size <= s.meta[r].blockSize
    ensures HeapOk(Taken(s, r, size))
  {
    hide IsBlock, Cut, PageOf, SystemOk, TableOk, QueueOk, PageOk, Partition, SegmentsOk, Load;
    var s' := Taken(s, r, size);
    FirstFree(s, r);
    TakenPage(s, r, size);
    SameCutOk(s, s');
    forall p | p in s'.meta
      ensures p in s'.lists && PageOk(s'.words, p, s'.meta[p], s'.lists[p])
      ensures Partition(p, s'.meta[p], s'.lists[p], s'.live)
    {
      if p != r {
        OtherPage(s, s', r, p, s.meta[r].free);
      }
    }
  }

  /** The state after an object was put back on its page's list. */
  ghost function Given(s: State, a: nat): State
    requires PageOf(a) in s.meta && PageOf(a) in s.lists && s.meta[PageOf(a)].used > 0
  {
    var (r, m) := (PageOf(a), s.meta[PageOf(a)]);
    s.(words := s.words[a := m.free],
       meta := s.meta[r := m.(free := a, used := m.used - 1)],
       lists := s.lists[r := [a] + s.lists[r]],
       live := s.live - {a})
  }

  lemma {:induction false} Pigeonhole(ks: seq<nat>, n: nat)
    requires Distinct(ks) && forall k | k in ks :: k < n
    ensures |ks| <= n
  {
    if ks != [] {
      assert ks[0] in ks;
      if i: nat :| i < |ks| && ks[i] == n - 1 {
        var rest := ks[..i] + ks[i + 1..];
        assert forall k | k in rest :: k in ks;
        assert forall j | 0 <= j < |rest| :: rest[j] == ks[if j < i then j else j + 1];
        Pigeonhole(rest, n - 1);
      } else {
        Pigeonhole(ks, n - 1);
      }
    }
  }

  /** Distinct blocks are no more than the page has. */
  lemma BlocksBounded(r: Ref, blockSize: nat, capacity: nat, list: seq<nat>)
    requires Distinct(list) && forall a | a in list :: IsBlock(r, blockSize, capacity, a)
    ensures |list| <= capacity
  {
    hide IsBlock, Addr;
    var ks: seq<nat> := seq(|list|, i requires 0 <= i < |list| => IndexOf(r, blockSize, capacity, list[i]));
    Pigeonhole(ks, capacity);
  }

  /** A page with a live object counts it as used. */
  lemma UsedPositive(s: State, a: nat)
    requires HeapOk(s) && a in s.live
    ensures PageOf(a) in s.meta && PageOf(a) in s.lists && s.meta[PageOf(a)].used > 0
  {
    hide IsBlock, Cut, PageOf, SystemOk, TableOk, QueueOk, LiveOk, Chain, SegmentsOk;
    LiveBlock(s, a);
    var (r, m) := (PageOf(a), s.meta[PageOf(a)]);
    assert PageOk(s.words, r, m, s.lists[r]);
    BlocksBounded(r, m.blockSize, m.capacity, [a] + s.lists[r]);
  }

  lemma GivenPage(s: State, a: nat)
    requires HeapOk(s) && a in s.live && PageOf(a) in s.meta && PageOf(a) in s.lists && s.meta[PageOf(a)].used > 0
    ensures var (s', r) := (Given(s, a), PageOf(a));
            PageOk(s'.words, r, s'.meta[r], s'.lists[r]) && Partition(r, s'.meta[r], s'.lists[r], s'.live)
  {
    hide IsBlock, Cut, PageOf, SystemOk, TableOk, QueueOk, LiveOk, Load, Chain, SegmentsOk;
    LiveBlock(s, a);
    var (r, m, list) := (PageOf(a), s.meta[PageOf(a)], s.lists[PageOf(a)]);
    assert PageOk(s.words, r, m, list) && Partition(r, m, list, s.live);
    Recovered(r, m.blockSize, m.capacity, a);
    ChainPush(s.words, m.free, list, a);
  }

  lemma GivenOk(s: State, a: nat)
    requires HeapOk(s) && a in s.live && PageOf(a) in s.meta && PageOf(a) in s.lists && s.meta[PageOf(a)].used > 0
    ensures HeapOk(Given(s, a))
  {
    hide IsBlock, Cut, PageOf, SystemOk, TableOk, QueueOk, PageOk, Partition, SegmentsOk, Load;
    var (s', r) := (Given(s, a), PageOf(a));
    GivenPage(s, a);
    GivenLoads(s, a);
    SameCutOk(s, s');
    forall p | p in s'.meta
      ensures p in s'.lists && PageOk(s'.words, p, s'.meta[p], s'.lists[p])
      ensures Partition(p, s'.meta[p], s'.lists[p], s'.live)
    {
      if p != r {
        OtherPage(s, s', r, p, a);
      }
    }
  }

  lemma GivenLoads(s: State, a: nat)
    requires PageOf(a) in s.meta && PageOf(a) in s.lists && s.meta[PageOf(a)].used > 0
    ensures forall b | b != a :: Load(Given(s, a).words, b) == Load(s.words, b)
  {
  }

  /** The bytes of live objects belong to their owners: whatever an owner makes of the word that holds
      one of them disturbs nothing. */
  lemma WriteOk(s: State, p: nat, a: nat, value: nat)
    requires HeapOk(s) && p in s.live && p <= a < p + s.live[p]
    ensures HeapOk(s.(words := s.words[WordOf(a) := value]))
  {
    hide HeapOk, Separate, Clear;
    HeapSeparate(s);
    WordInside(s.live, p, a);
    WordWritten(s, p, WordOf(a), value);
  }

  /** The words that hold the bytes of live objects are the same. */
  ghost predicate Untouched(live: map<nat, nat>, words: Words, words': Words) {
    forall a, x | a in live && a <= x < a + live[a] :: Load(words', WordOf(x)) == Load(words, WordOf(x))
  }

  /** Cutting an unclaimed page into blocks does not touch the objects. */
  lemma CarvedUntouched(s: State, words: Words, r: Ref, blockSize: nat, capacity: nat)
    requires HeapOk(s) && r in s.meta && s.meta[r].blockSize == 0 && Cut(r, blockSize, capacity) && RefOk(r)
    requires OnlyBlocks(s.words, words, r, blockSize, capacity)
    ensures Untouched(s.live, s.words, words)
  {
    hide HeapOk, IsBlock, Cut, PageOf, WordOf, Load, Separate;
    HeapSeparate(s);
    CarvedLive(s, r);
    forall a, x | a in s.live && a <= x < a + s.live[a] ensures Load(words, WordOf(x)) == Load(s.words, WordOf(x)) {
      WordInside(s.live, a, x);
      InPage(s, a, WordOf(x));
      if IsBlock(r, blockSize, capacity, WordOf(x)) {
        Recovered(r, blockSize, capacity, WordOf(x));
      }
    }
  }

  /** The bytes of an object are in its page. */
  lemma InPage(s: State, p: nat, a: nat)
    requires HeapOk(s) && p in s.live && p <= a < p + s.live[p]
    ensures PageOf(a) == PageOf(p)
  {
    hide HeapOk, IsBlock, Cut, PageOf;
    LiveBlock(s, p);
    var r := PageOf(p);
    BlockPlace(r, s.meta[r].blockSize, s.meta[r].capacity, p);
    PageRecovered(r, a);
  }

  /** Freeing an object does not touch the others. */
  lemma GivenUntouched(s: State, p: nat, words: Words)
    requires HeapOk(s) && p in s.live && forall b | b != p :: Load(words, b) == Load(s.words, b)
    ensures Untouched(s.live - {p}, s.words, words)
  {
    hide HeapOk, Load, WordOf, Clear;
    HeapSeparate(s);
    forall a, x | a in s.live - {p} && a <= x < a + s.live[a]
      ensures Load(words, WordOf(x)) == Load(s.words, WordOf(x))
    {
      WordInside(s.live, a, x);
      NotInside(s, a, p);
    }
  }

  /** No object starts inside another. */
  lemma NotInside(s: State, a: nat, p: nat)
    requires HeapOk(s) && a in s.live && p in s.live && a != p
    ensures !(a <= p < a + s.live[a])
  {
    hide IsBlock, Cut, PageOf, PagesOk, SystemOk, TableOk, QueueOk, SegmentsOk;
    LiveBlock(s, a);
    LiveBlock(s, p);
    var (r, q) := (PageOf(a), PageOf(p));
    BlockPlace(r, s.meta[r].blockSize, s.meta[r].capacity, a);
    if r == q {
      BlocksApart(r, s.meta[r].blockSize, s.meta[r].capacity, a, p);
    } else {
      BlockPlace(q, s.meta[q].blockSize, s.meta[q].capacity, p);
      PagesDisjoint(r, q);
    }
  }

  lemma WordInside(live: map<nat, nat>, p: nat, a: nat)
    requires Separate(live) && p in live && p <= a < p + live[p]
    ensures p <= WordOf(a) < p + live[p]
  {
    hide Clear, WordOf;
    assert p % 8 == 0;
    WordBefore(p, a);
  }

  lemma WordBefore(p: nat, a: nat)
    requires p % 8 == 0 && p <= a
    ensures p <= WordOf(a) <= a
  {
    assert p == p / 8 * 8 && WordOf(a) == a / 8 * 8;
  }

  lemma WordWritten(s: State, p: nat, a: nat, value: nat)
    requires HeapOk(s) && p in s.live && p <= a < p + s.live[p]
    ensures HeapOk(s.(words := s.words[a := value]))
  {
    hide IsBlock, Cut, PageOf, SystemOk, TableOk, QueueOk, SegmentsOk, Load, Chain, Distinct;
    var s' := s.(words := s.words[a := value]);
    assert forall b | b != a :: Load(s'.words, b) == Load(s.words, b) by { WrittenLoads(s.words, a, value); }
    LiveBlock(s, p);
    var r := PageOf(p);
    BlockPlace(r, s.meta[r].blockSize, s.meta[r].capacity, p);
    PageRecovered(r, a);
    SameCutOk(s, s');
    forall q | q in s'.meta
      ensures q in s'.lists && PageOk(s'.words, q, s'.meta[q], s'.lists[q])
      ensures Partition(q, s'.meta[q], s'.lists[q], s'.live)
    {
      WrittenPage(s, q, p, a, value);
    }
  }

  lemma WrittenLoads(words: Words, a: nat, value: nat)
    ensures forall b | b != a :: Load(words[a := value], b) == Load(words, b)
  {
  }

  lemma WrittenPage(s: State, q: Ref, p: nat, a: nat, value: nat)
    requires HeapOk(s) && p in s.live && p <= a < p + s.live[p] && q in s.meta
    ensures q in s.lists && PageOk(s.words[a := value], q, s.meta[q], s.lists[q])
  {
    hide IsBlock, Cut, PageOf, SystemOk, TableOk, QueueOk, SegmentsOk, Load, Distinct, LiveOk;
    LiveBlock(s, p);
    var (r, m, list) := (PageOf(p), s.meta[q], s.lists[q]);
    assert PageOk(s.words, q, m, list);
    if m.blockSize > 0 {
      WrittenLoads(s.words, a, value);
      forall b | b in list ensures b != a {
        FreeElsewhere(s, q, b, p);
      }
      ChainFrame(s.words, s.words[a := value], m.free, list);
    }
  }

  /** A free block is not inside a live one. */
  lemma FreeElsewhere(s: State, q: Ref, b: nat, p: nat)
    requires HeapOk(s) && p in s.live && q in s.meta && q in s.lists && b in s.lists[q]
    ensures !(p <= b < p + s.live[p])
  {
    hide IsBlock, Cut, PageOf, SystemOk, TableOk, QueueOk, Load, Distinct, LiveOk, Chain;
    LiveBlock(s, p);
    var (r, m) := (PageOf(p), s.meta[q]);
    assert PageOk(s.words, q, m, s.lists[q]) && RefOk(q);
    assert IsBlock(q, m.blockSize, m.capacity, b);
    if q == r {
      BlocksApart(q, m.blockSize, m.capacity, b, p);
    } else {
      BlockPlace(q, m.blockSize, m.capacity, b);
      BlockPlace(r, s.meta[r].blockSize, s.meta[r].capacity, p);
      PagesDisjoint(q, r);
    }
  }

  // ---------------------------------------------------------------- claiming a page

  /** The addresses of the `n` blocks of a page from the block `first`. */
  function Blocks(r: Ref, blockSize: nat, first: nat, n: nat): (list: seq<nat>)
    ensures |list| == n
    decreases n
  {
    if n == 0 then [] else [Addr(r, blockSize, first)] + Blocks(r, blockSize, first + 1, n - 1)
  }

  lemma {:induction false} BlocksAt(r: Ref, blockSize: nat, first: nat, n: nat, i: nat)
    requires i < n
    ensures Blocks(r, blockSize, first, n)[i] == Addr(r, blockSize, first + i)
    decreases i
  {
    hide Addr;
    if i > 0 {
      BlocksAt(r, blockSize, first + 1, n - 1, i - 1);
    }
  }

  lemma BlocksAre(r: Ref, blockSize: nat, capacity: nat)
    requires blockSize > 0
    ensures Distinct(Blocks(r, blockSize, 0, capacity))
    ensures forall a :: a in Blocks(r, blockSize, 0, capacity) <==> IsBlock(r, blockSize, capacity, a)
  {
    hide IsBlock, Addr, Blocks;
    var list := Blocks(r, blockSize, 0, capacity);
    forall i: nat | i < |list| ensures list[i] == Addr(r, blockSize, i) && IsBlock(r, blockSize, capacity, list[i]) {
      BlocksAt(r, blockSize, 0, capacity, i);
      AddrIsBlock(r, blockSize, capacity, i);
    }
    forall j: nat, k: nat | j < k < |list| ensures list[j] != list[k] {
      AddrInjective(r, blockSize, j, k);
    }
    forall a | IsBlock(r, blockSize, capacity, a) ensures a in list {
      assert list[IndexOf(r, blockSize, capacity, a)] == a;
    }
  }

  function SetOf(list: seq<nat>): set<nat> {
    set a | a in list
  }

  lemma {:induction false} DistinctCount(list: seq<nat>)
    requires Distinct(list)
    ensures |SetOf(list)| == |list|
  {
    if list == [] {
      assert SetOf(list) == {};
    } else {
      var (last, rest) := (list[|list| - 1], list[..|list| - 1]);
      DistinctCount(rest);
      assert list == rest + [last] && last !in rest;
      assert SetOf(list) == SetOf(rest) + {last};
    }
  }

  /** The objects that live in a page. */
  ghost function LiveIn(s: State, r: Ref): set<nat> {
    set a | a in s.live && PageOf(a) == r
  }

  /** In a claimed page the used count is the number of live objects, and with the length of the free
      list it makes up the capacity. */
  lemma PageCounts(s: State, r: Ref)
    requires HeapOk(s) && r in s.meta && s.meta[r].blockSize > 0
    ensures r in s.lists && s.meta[r].used == |LiveIn(s, r)| && |LiveIn(s, r)| + |s.lists[r]| == s.meta[r].capacity
  {
    hide IsBlock, Cut, PageOf, SystemOk, TableOk, QueueOk, Chain, Blocks, Distinct;
    var (m, list) := (s.meta[r], s.lists[r]);
    assert RefOk(r) && PageOk(s.words, r, m, list) && Partition(r, m, list, s.live);
    var blocks := Blocks(r, m.blockSize, 0, m.capacity);
    BlocksAre(r, m.blockSize, m.capacity);
    DistinctCount(blocks);
    DistinctCount(list);
    var (all, free) := (SetOf(blocks), SetOf(list));
    forall a ensures a in LiveIn(s, r) <==> a in all - free {
      if IsBlock(r, m.blockSize, m.capacity, a) {
        Recovered(r, m.blockSize, m.capacity, a);
      }
    }
    assert LiveIn(s, r) == all - free;
  }

  /** A block is not among those behind it. */
  lemma BlockBefore(r: Ref, blockSize: nat, first: nat, n: nat)
    requires blockSize > 0 && RefOk(r)
    ensures Addr(r, blockSize, first) != 0 && Addr(r, blockSize, first) !in Blocks(r, blockSize, first + 1, n)
  {
    hide Addr, Blocks;
    AddrPositive(r, blockSize, first);
    var list := Blocks(r, blockSize, first + 1, n);
    forall i: nat | i < |list| ensures list[i] != Addr(r, blockSize, first) {
      BlocksAt(r, blockSize, first + 1, n, i);
      AddrInjective(r, blockSize, first, first + 1 + i);
    }
  }

  lemma AddrPositive(r: Ref, blockSize: nat, k: nat)
    requires RefOk(r)
    ensures Addr(r, blockSize, k) > 0
  {
  }

  /** The state after a page was cut into blocks. */
  ghost function Carved(s: State, words: Words, r: Ref, free: nat, blockSize: nat, capacity: nat): State {
    s.(words := words, meta := s.meta[r := Meta(free, 0, capacity, blockSize)],
       lists := s.lists[r := Blocks(r, blockSize, 0, capacity)])
  }

  ghost predicate OnlyBlocks(words: Words, words': Words, r: Ref, blockSize: nat, capacity: nat) {
    forall a | Load(words', a) != Load(words, a) :: IsBlock(r, blockSize, capacity, a)
  }

  lemma CarvedOk(s: State, words: Words, r: Ref, free: nat, blockSize: nat, capacity: nat)
    requires HeapOk(s) && r in s.meta && s.meta[r].blockSize == 0 && Cut(r, blockSize, capacity)
    requires Chain(words, free, Blocks(r, blockSize, 0, capacity)) && OnlyBlocks(s.words, words, r, blockSize, capacity)
    ensures HeapOk(Carved(s, words, r, free, blockSize, capacity))
  {
    hide IsBlock, Addr, Blocks, Chain, Distinct, Load, PageOf, PageOk, Partition, OnlyBlocks;
    var s' := Carved(s, words, r, free, blockSize, capacity);
    assert RefOk(r);
    forall q | q in s'.meta
      ensures q in s'.lists && PageOk(s'.words, q, s'.meta[q], s'.lists[q])
      ensures Partition(q, s'.meta[q], s'.lists[q], s'.live)
    {
      if q == r {
        CarvedPage(s, words, r, free, blockSize, capacity);
      } else {
        CarvedOther(s, words, r, blockSize, capacity, q);
      }
    }
    CarvedLive(s, r);
    CarvedSystem(s, words, r, free, blockSize, capacity);
  }

  /** An unclaimed page has no live objects. */
  lemma CarvedLive(s: State, r: Ref)
    requires HeapOk(s) && r in s.meta && s.meta[r].blockSize == 0
    ensures forall a | a in s.live :: PageOf(a) != r
  {
    hide IsBlock, PageOf, PagesOk, SystemOk, TableOk, QueueOk, SegmentsOk;
    NoBlocks(r, s.meta[r]);
  }

  lemma CarvedPage(s: State, words: Words, r: Ref, free: nat, blockSize: nat, capacity: nat)
    requires HeapOk(s) && r in s.meta && s.meta[r].blockSize == 0 && Cut(r, blockSize, capacity)
    requires Chain(words, free, Blocks(r, blockSize, 0, capacity))
    ensures var m := Meta(free, 0, capacity, blockSize);
            PageOk(words, r, m, Blocks(r, blockSize, 0, capacity))
            && Partition(r, m, Blocks(r, blockSize, 0, capacity), s.live)
  {
    hide IsBlock, PageOf, PagesOk, SystemOk, TableOk, QueueOk, LiveOk, Blocks, Chain, Distinct;
    BlocksAre(r, blockSize, capacity);
    CarvedLive(s, r);
    forall a | IsBlock(r, blockSize, capacity, a) ensures a !in s.live {
      Recovered(r, blockSize, capacity, a);
    }
  }

  lemma CarvedOther(s: State, words: Words, r: Ref, blockSize: nat, capacity: nat, q: Ref)
    requires HeapOk(s) && r in s.meta && q in s.meta && q != r && Cut(r, blockSize, capacity)
    requires OnlyBlocks(s.words, words, r, blockSize, capacity)
    ensures q in s.lists && PageOk(words, q, s.meta[q], s.lists[q]) && Partition(q, s.meta[q], s.lists[q], s.live)
  {
    hide IsBlock, PageOf, SystemOk, TableOk, QueueOk, LiveOk, Distinct, Load, Cut;
    var (m, list) := (s.meta[q], s.lists[q]);
    assert PageOk(s.words, q, m, list) && Partition(q, m, list, s.live) && RefOk(q) && RefOk(r);
    if m.blockSize > 0 {
      forall a | a in list ensures Load(words, a) == Load(s.words, a) {
        Recovered(q, m.blockSize, m.capacity, a);
        if IsBlock(r, blockSize, capacity, a) {
          Recovered(r, blockSize, capacity, a);
        }
      }
      ChainFrame(s.words, words, m.free, list);
    }
  }

  lemma CarvedSystem(s: State, words: Words, r: Ref, free: nat, blockSize: nat, capacity: nat)
    requires HeapOk(s) && r in s.meta && s.meta[r].blockSize == 0 && Cut(r, blockSize, capacity)
    requires OnlyBlocks(s.words, words, r, blockSize, capacity)
    ensures var s' := Carved(s, words, r, free, blockSize, capacity);
            SegmentsOk(s'.meta) && TableOk(s'.meta, s'.pages) && QueueOk(s'.meta, s'.queue) && SystemOk(s')
  {
    hide IsBlock, PagesOk, LiveOk, Distinct, Load, Cut, RefOk;
    var s' := Carved(s, words, r, free, blockSize, capacity);
    forall k, a | 0 <= k < |s.os| && SegmentOf(a) == s.os[k] ensures Load(words, a) == 0 {
      if IsBlock(r, blockSize, capacity, a) {
        assert RefOk(r);
        Recovered(r, blockSize, capacity, a);
      }
    }
  }

  // ---------------------------------------------------------------- segments

  /** The records of a zeroed segment's first `n` pages were added. */
  ghost predicate Added(meta: map<Ref, Meta>, meta': map<Ref, Meta>, seg: nat, n: nat) {
    && (forall r :: r in meta' <==> r in meta || (r.seg == seg && r.idx < n))
    && (forall r | r in meta' :: meta'[r] == if r.seg == seg then Meta(0, 0, 0, 0) else meta[r])
  }

  ghost function WithLists(lists: map<Ref, seq<nat>>, meta: map<Ref, Meta>, seg: nat): map<Ref, seq<nat>> {
    map r | r in meta :: if r.seg == seg || r !in lists then [] else lists[r]
  }

  /** The heap with the system's next segment, none of its pages claimed, in an empty queue. */
  ghost predicate Opened(s: State, s': State) {
    && s.os != [] && Added(s.meta, s'.meta, s.os[0], NR_PAGES)
    && s' == s.(meta := s'.meta, lists := WithLists(s.lists, s'.meta, s.os[0]), queue := [s.os[0]], os := s.os[1..])
  }

  lemma SegmentOk(s: State, meta: map<Ref, Meta>)
    requires HeapOk(s) && s.os != [] && s.queue == [] && Added(s.meta, meta, s.os[0], NR_PAGES)
    ensures HeapOk(s.(meta := meta, lists := WithLists(s.lists, meta, s.os[0]), queue := [s.os[0]], os := s.os[1..]))
  {
    hide IsBlock, Cut, Chain, Load;
    var seg := s.os[0];
    var s' := s.(meta := meta, lists := WithLists(s.lists, meta, seg), queue := [seg], os := s.os[1..]);
    assert Ref(seg, 0) in s'.meta;
    forall r | r in s'.meta
      ensures PageOk(s'.words, r, s'.meta[r], s'.lists[r]) && Partition(r, s'.meta[r], s'.lists[r], s'.live)
    {
      if r.seg == seg {
        NoBlocks(r, s'.meta[r]);
      } else {
        assert r in s.meta;
      }
    }
    forall a | a in s.live ensures PageOf(a).seg != seg {
      assert PageOf(a) in s.meta && Ref(seg, PageOf(a).idx) !in s.meta;
    }
    forall r | r in s.meta ensures r.seg != seg {
      assert Ref(seg, r.idx) !in s.meta;
    }
    SegmentSystem(s, s');
  }

  lemma SegmentSystem(s: State, s': State)
    requires SystemOk(s) && s.os != [] && Added(s.meta, s'.meta, s.os[0], NR_PAGES)
    requires s'.os == s.os[1..] && s'.words == s.words
    ensures SystemOk(s')
  {
    hide Load;
    assert forall k | 0 <= k < |s'.os| :: s'.os[k] == s.os[k + 1] && s.os[k + 1] != s.os[0];
  }

  // ---------------------------------------------------------------- the allocator

  class Allocator {
    var words: Words
    var meta: map<Ref, Meta>
    var pages: seq<Option<Ref>>
    var queue: seq<nat>
    var os: seq<nat>
    ghost var lists: map<Ref, seq<nat>>
    ghost var live: map<nat, nat>

    ghost function Now(): State
      reads this
    {
      State(words, meta, pages, queue, os, lists, live)
    }

    ghost predicate Valid()
      reads this
    {
      HeapOk(Now())
    }

    /** Every class starts with the empty page. */
    constructor (words: Words, os: seq<nat>)
      requires SystemOk(State(words, map[], [], [], os, map[], map[]))
      ensures Valid() && live == map[]
    {
      this.words, this.os := words, os;
      meta, queue, lists, live := map[], [], map[], map[];
      pages := seq(NUM_SIZE_CLASSES, i => None);
    }

    /** Puts an object in front of a page's free list. */
    method AppendObj(r: Ref, a: nat)
      requires r in meta
      modifies this`words, this`meta
      ensures words == old(words)[a := old(meta)[r].free] && meta == old(meta)[r := old(meta)[r].(free := a)]
    {
      words := words[a := meta[r].free];
      meta := meta[r := meta[r].(free := a)];
    }

    /** Cuts an unclaimed page into blocks, the first in front. */
    method ClaimPage(r: Ref, blockSize: nat)
      requires Valid() && r in meta && meta[r].blockSize == 0 && 8 <= blockSize <= MAX_BLOCK && blockSize % 8 == 0
      modifies this`words, this`meta, this`lists
      ensures Valid() && Claimed(old(Now()), Now(), r, blockSize) && r in meta && r in lists && lists[r] != []
      ensures meta[r].blockSize == blockSize && meta[r].used < meta[r].capacity
    {
      hide IsBlock, Chain, Addr, Load, SystemOk, PagesOk, LiveOk, TableOk, QueueOk, OnlyBlocks;
      ghost var s := Now();
      RecordIs(s, r);
      meta := meta[r := Meta(0, 0, Room(r) / blockSize, blockSize)];
      var capacity := meta[r].capacity;
      CapacityPositive(r, blockSize);
      NothingCarved(words, r, blockSize, capacity);
      for idx := 0 to capacity
        invariant r in meta && meta == s.meta[r := Meta(meta[r].free, 0, capacity, blockSize)]
        invariant Chain(words, meta[r].free, Blocks(r, blockSize, capacity - idx, idx))
        invariant OnlyBlocks(s.words, words, r, blockSize, capacity) && lists == s.lists
      {
        var k := capacity - idx - 1;
        BlockBefore(r, blockSize, k, idx);
        ChainPush(words, meta[r].free, Blocks(r, blockSize, k + 1, idx), Addr(r, blockSize, k));
        StillOnly(s.words, words, r, blockSize, capacity, k, meta[r].free);
        AppendObj(r, Addr(r, blockSize, k));
      }
      lists := lists[r := Blocks(r, blockSize, 0, capacity)];
      CarvedOk(s, words, r, meta[r].free, blockSize, capacity);
      CarvedUntouched(s, words, r, blockSize, capacity);
      ChainHead(words, meta[r].free, Blocks(r, blockSize, 0, capacity));
      FirstBlock(r, blockSize, capacity);
      assert Now() == Carved(s, words, r, Base(r), blockSize, capacity);
    }

    /** Takes a segment from the system and queues it. */
    method AllocSegment() returns (seg: nat)
      requires Valid() && queue == []
      modifies this`meta, this`lists, this`queue, this`os
      ensures Valid()
      ensures seg == 0 <==> old(os) == []
      ensures seg == 0 ==> Now() == old(Now())
      ensures seg != 0 ==> Opened(old(Now()), Now()) && seg == old(os)[0]
      ensures seg != 0 ==> Ref(seg, 0) in meta && meta[Ref(seg, 0)].blockSize == 0
    {
      hide HeapOk, WithLists, Added;
      if os == [] {
        return 0;
      }
      seg := os[0];
      ghost var s := Now();
      FreshSegment(s);
      AddedNone(meta, seg);
      for j := 0 to NR_PAGES
        invariant Added(s.meta, meta, seg, j) && queue == s.queue && os == s.os && lists == s.lists
      {
        AddedNext(s.meta, meta, seg, j);
        meta := meta[Ref(seg, j) := Meta(0, 0, 0, 0)];
      }
      SegmentOk(s, meta);
      AddedFirst(s.meta, meta, seg);
      lists := WithLists(lists, meta, seg);
      queue := [seg];
      os := os[1..];
    }

    /** Looks in a segment for a page with a free block of a size, and claims the first unclaimed one. */
    method FindPage(seg: nat, blockSize: nat) returns (r: Option<Ref>)
      requires Valid() && Ref(seg, 0) in meta && 8 <= blockSize <= MAX_BLOCK && blockSize % 8 == 0
      modifies this`words, this`meta, this`lists
      ensures Valid()
      ensures r.Some? ==> Has(Now(), r.value, blockSize) && Found(old(Now()), Now(), seg, r.value, blockSize)
      ensures r.None? ==> Now() == old(Now()) && meta[Ref(seg, 0)].blockSize != 0
      ensures r.None? <==> old(Exhausted(Now(), seg, NR_PAGES, blockSize))
    {
      hide HeapOk, Claimed;
      FirstFree(Now(), Ref(seg, 0));
      for i := 0 to NR_PAGES
        invariant Now() == old(Now()) && Exhausted(Now(), seg, i, blockSize)
      {
        var page := Ref(seg, i);
        PageThere(Now(), seg, i);
        FirstFree(Now(), page);
        if meta[page].blockSize == 0 {
          ClaimPage(page, blockSize);
        } else if meta[page].blockSize != blockSize {
          continue;
        }
        if meta[page].capacity - meta[page].used > 0 {
          FirstFree(Now(), page);
          return Some(page);
        }
      }
      return None;
    }

    /** Finds a page with a free block of a size, in the queued segment or in a new one. */
    method AllocPage(size: nat) returns (r: Option<Ref>, ghost open: State, ghost passes: nat)
      requires Valid() && 0 < size <= MAX_BLOCK
      modifies this`words, this`meta, this`lists, this`queue, this`os
      ensures Valid() && passes <= 2
      ensures r.Some? ==> Has(Now(), r.value, ToBlockSize(size))
      ensures r.Some? ==> Found(open, Now(), r.value.seg, r.value, ToBlockSize(size))
      ensures r.Some? ==> Opens(old(Now()), open, r.value.seg, ToBlockSize(size))
      ensures r.None? ==> Now() == old(Now()).(queue := [])
      ensures r.None? <==> old(NoRoom(Now(), ToBlockSize(size)))
    {
      hide HeapOk, Has, ToBlockSize, Found, Exhausted, Added, WithLists;
      BlockSizeOk(size);
      passes := 0;
      while true
        invariant Valid() && passes <= 1
        invariant passes == 0 ==> Now() == old(Now())
        invariant passes == 1 ==> Now() == old(Now()).(queue := []) && |old(queue)| == 1
                                  && old(Exhausted(Now(), queue[0], NR_PAGES, ToBlockSize(size)))
        decreases 2 - passes
      {
        var seg;
        QueueThere(Now());
        if queue == [] {
          seg := AllocSegment();
          if seg == 0 {
            return None, Now(), passes;
          }
        } else {
          seg := queue[0];
        }
        open := Now();
        r := FindPage(seg, ToBlockSize(size));
        if r.Some? {
          FoundIn(open, Now(), seg, r.value, ToBlockSize(size));
          return r, open, passes + 1;
        }
        QueueThere(Now());
        Dequeued(Now());
        queue := queue[1..];
        assert Now() == Now().(queue := []);
        passes := passes + 1;
      }
    }

    /** The page in use for the class of a size, or another one with a free block. */
    method GetPage(size: nat) returns (r: Option<Ref>, ghost open: State)
      requires Valid() && 0 < size <= MAX_BLOCK
      modifies this`words, this`meta, this`lists, this`queue, this`os, this`pages
      ensures Valid()
      ensures r.Some? ==> Has(Now(), r.value, ToBlockSize(size)) && Gets(old(Now()), open, Now(), r.value, size)
      ensures r.None? ==> Now() == old(Now()).(queue := [])
      ensures r.None? <==> !old(InUse(Now(), size)) && old(NoRoom(Now(), ToBlockSize(size)))
    {
      hide HeapOk, ToBlockSize, ToSizeClass, Found, Opens, NoRoom;
      ClassOf(Now(), size);
      var sizeClass := ToSizeClass(size);
      var page := pages[sizeClass];
      if page.Some? {
        FirstFree(Now(), page.value);
        if meta[page.value].free != 0 {
          return page, Now();
        }
      }
      ghost var passes;
      r, open, passes := AllocPage(size);
      if r.Some? {
        ClassOf(Now(), size);
        Retabled(Now(), size, r.value);
        pages := pages[sizeClass := r];
      }
    }

    /** Allocates an object; zero is the null pointer. It is the first free block of the page in use for the
        class, or of the first page that has one; no other page changes, and no object is touched. For sizes
        whose class is not in the table the code reads past it, and nothing more is said than that it does. */
    method Malloc(size: nat) returns (p: nat, inTable: bool, ghost open: State, ghost found: State)
      requires Valid()
      modifies this
      ensures Valid() && Separate(live)
      ensures !inTable <==> MAX_BLOCK < size < SMALL_OBJ_SIZE_MAX
      ensures size > MAX_BLOCK ==> p == 0 && Now() == old(Now())
      ensures Untouched(old(live), old(words), words)
      ensures size <= MAX_BLOCK && p == 0 ==> Now() == old(Now()).(queue := [])
      ensures size <= MAX_BLOCK ==>
                (p == 0 <==> !old(InUse(Now(), Object(size))) && old(NoRoom(Now(), ToBlockSize(Object(size)))))
      ensures p != 0 ==> p !in old(live) && live == old(live)[p := size]
      ensures p != 0 ==> Gets(old(Now()), open, found, PageOf(p), Object(size))
      ensures p != 0 ==> Has(found, PageOf(p), ToBlockSize(Object(size))) && Now() == Taken(found, PageOf(p), size)
      ensures size <= MAX_BLOCK && old(InUse(Now(), Object(size))) ==> p == old(Top(Now(), Object(size)))
    {
      hide HeapOk, ToBlockSize, ToSizeClass, PageOf, Separate, Untouched, Found, Opens, NoRoom;
      HeapSeparate(Now());
      open, found := Now(), Now();
      NoneTouched(live, words);
      if size >= SMALL_OBJ_SIZE_MAX {
        return 0, true, open, found;
      }
      TableSize(Now());
      ClassInRange(Object(size));
      if ToSizeClass(Object(size)) >= |pages| {
        return 0, false, open, found;
      }
      BlockFits(Object(size));
      inTable := true;
      var page;
      page, open := GetPage(Object(size));
      found := Now();
      if page.None? {
        HeapSeparate(Now());
        return 0, true, open, found;
      }
      GetsUntouched(old(Now()), open, found, page.value, Object(size));
      FirstFree(Now(), page.value);
      p := meta[page.value].free;
      TakenOk(Now(), page.value, size);
      meta, lists, live :=
        meta[page.value := meta[page.value].(free := Load(words, p), used := meta[page.value].used + 1)],
        lists[page.value := lists[page.value][1..]],
        live[p := size];
      HeapSeparate(Now());
    }

    /** Frees an object; freeing the null pointer does nothing. */
    method Free(p: nat)
      requires Valid() && (p == 0 || p in live)
      modifies this`words, this`meta, this`lists, this`live
      ensures Valid() && live == old(live) - {p} && Untouched(live, old(words), words)
      ensures p == 0 ==> Now() == old(Now())
      ensures p != 0 ==> PageOf(p) in old(meta) && PageOf(p) in old(lists) && old(meta)[PageOf(p)].used > 0
      ensures p != 0 ==> Now() == Given(old(Now()), p)
    {
      hide HeapOk, PageOf, Untouched;
      HeapSeparate(Now());
      NoneTouched(live - {p}, words);
      if p == 0 {
        return;
      }
      UsedPositive(Now(), p);
      GivenOk(Now(), p);
      GivenLoads(Now(), p);
      GivenUntouched(Now(), p, Given(Now(), p).words);
      ghost var s := Now();
      var page := PageOf(p);
      AppendObj(page, p);
      meta := meta[page := meta[page].(used := meta[page].used - 1)];
      lists := lists[page := [p] + lists[page]];
      live := live - {p};
      assert Now() == Given(s, p);
    }

    /** An owner stores a byte of an object, which changes the word that holds it. */
    method Write(p: nat, a: nat, value: nat)
      requires Valid() && p in live && p <= a < p + live[p]
      modifies this`words
      ensures Valid() && words == old(words)[WordOf(a) := value]
    {
      hide HeapOk;
      WriteOk(Now(), p, a, value);
      words := words[WordOf(a) := value];
    }

    /** What is freed is handed out again for the next object of its class. */
    method Recycle(size: nat, size': nat) returns (p: nat, q: nat)
      requires Valid() && size <= MAX_BLOCK && size' <= MAX_BLOCK
      requires ToSizeClass(Object(size)) == ToSizeClass(Object(size'))
      modifies this
      ensures Valid() && (p != 0 ==> q == p)
    {
      hide HeapOk, ToSizeClass, PageOf, Separate;
      ClassInRange(Object(size));
      var inTable;
      ghost var open, found;
      p, inTable, open, found := Malloc(size);
      if p == 0 {
        return 0, 0;
      }
      Free(p);
      q, inTable, open, found := Malloc(size');
    }
  }

  // ---------------------------------------------------------------- a client

  /** What a client may do: get an object, give back the `k`-th of those it holds, write a byte of it. */
  datatype Call = Get(size: nat) | Drop(k: nat) | Fill(k: nat, offset: nat, value: nat)

  datatype Held = Held(p: nat, size: nat)

  /** The objects a client holds, and what it last wrote to their words. */
  datatype Client = Client(held: seq<Held>, data: map<nat, nat>)

  /** What a call means to the client, `p` being the pointer it is given if it asks for one. */
  function Perform(c: Client, call: Call, p: nat): Client {
    match call
    case Get(size) => if p == 0 then c else c.(held := c.held + [Held(p, size)])
    case Drop(k) =>
      if k >= |c.held| then c
      else Client(c.held[..k] + c.held[k + 1..],
                  map w | w in c.data && !(c.held[k].p <= w < c.held[k].p + c.held[k].size) :: c.data[w])
    case Fill(k, offset, value) =>
      if k >= |c.held| || offset >= c.held[k].size then c
      else c.(data := c.data[WordOf(c.held[k].p + offset) := value])
  }

  function Performed(calls: seq<Call>, ps: seq<nat>): Client
    requires |calls| == |ps|
  {
    if calls == [] then Client([], map[])
    else
      var n := |calls| - 1;
      Perform(Performed(calls[..n], ps[..n]), calls[n], ps[n])
  }

  /** What the client holds is live, and what it wrote lies in what it holds. */
  ghost predicate Owns(live: map<nat, nat>, c: Client) {
    && (forall k | 0 <= k < |c.held| :: c.held[k].p in live && live[c.held[k].p] == c.held[k].size)
    && (forall j, k | 0 <= j < k < |c.held| :: c.held[j].p != c.held[k].p)
    && (forall w | w in c.data :: Inside(c.held, w))
  }

  ghost predicate Inside(held: seq<Held>, w: nat) {
    w % 8 == 0 && exists k :: 0 <= k < |held| && held[k].p <= w < held[k].p + held[k].size
  }

  ghost predicate Remembers(words: Words, data: map<nat, nat>) {
    forall w | w in data :: Load(words, w) == data[w]
  }

  lemma OwnsMore(live: map<nat, nat>, c: Client, p: nat, size: nat)
    requires Owns(live, c) && p !in live
    ensures Owns(live[p := size], c.(held := c.held + [Held(p, size)]))
  {
    var c' := c.(held := c.held + [Held(p, size)]);
    forall w | w in c.data ensures Inside(c'.held, w) {
      var k :| 0 <= k < |c.held| && c.held[k].p <= w < c.held[k].p + c.held[k].size;
      assert c'.held[k] == c.held[k];
    }
  }

  lemma OwnsLess(live: map<nat, nat>, c: Client, k: nat)
    requires Owns(live, c) && k < |c.held|
    ensures Owns(live - {c.held[k].p}, Perform(c, Drop(k), 0))
  {
    hide Inside;
    var (p, held') := (c.held[k].p, c.held[..k] + c.held[k + 1..]);
    forall j | 0 <= j < |held'|
      ensures held'[j].p in live - {p} && (live - {p})[held'[j].p] == held'[j].size
    {
      HeldBut(c.held, k, j);
    }
    forall i, j | 0 <= i < j < |held'| ensures held'[i].p != held'[j].p {
      HeldBut(c.held, k, i);
      HeldBut(c.held, k, j);
    }
    forall w | w in Perform(c, Drop(k), 0).data ensures Inside(held', w) {
      InsideBut(c.held, k, w);
    }
  }

  lemma HeldBut(held: seq<Held>, k: nat, j: nat)
    requires k < |held| && j < |held| - 1
    ensures (held[..k] + held[k + 1..])[j] == held[if j < k then j else j + 1]
  {
  }

  lemma InsideBut(held: seq<Held>, k: nat, w: nat)
    requires k < |held| && Inside(held, w) && !(held[k].p <= w < held[k].p + held[k].size)
    ensures Inside(held[..k] + held[k + 1..], w)
  {
    var j :| 0 <= j < |held| && held[j].p <= w < held[j].p + held[j].size;
    HeldBut(held, k, if j < k then j else j - 1);
  }

  lemma OwnsWritten(live: map<nat, nat>, c: Client, k: nat, offset: nat, value: nat)
    requires Owns(live, c) && Separate(live) && k < |c.held| && offset < c.held[k].size
    ensures Owns(live, Perform(c, Fill(k, offset, value), 0))
  {
    hide WordOf, Clear;
    var (p, c') := (c.held[k].p, Perform(c, Fill(k, offset, value), 0));
    WordInside(live, p, p + offset);
    WordWhole(p + offset);
    assert Inside(c'.held, WordOf(p + offset));
    forall w | w in c'.data && w != WordOf(p + offset) ensures Inside(c'.held, w) {
      assert w in c.data;
    }
  }

  lemma WordWhole(a: nat)
    ensures WordOf(a) % 8 == 0 && (a % 8 == 0 ==> WordOf(a) == a)
  {
  }

  lemma StillRemembers(live: map<nat, nat>, words: Words, words': Words, c: Client)
    requires Owns(live, c) && Untouched(live, words, words') && Remembers(words, c.data)
    ensures Remembers(words', c.data)
  {
    hide WordOf, Load;
    forall w | w in c.data ensures Load(words', w) == c.data[w] {
      WordWhole(w);
      assert Inside(c.held, w);
    }
  }

  /** What a client last wrote to an object it still holds is what it reads from it, whatever it and others did
      in between; and the heap keeps its objects apart. */
  method Session(heap: Allocator, calls: seq<Call>) returns (ps: seq<nat>, c: Client)
    requires heap.Valid()
    modifies heap
    ensures heap.Valid() && Separate(heap.live) && Owns(heap.live, c)
    ensures |ps| == |calls| && c == Performed(calls, ps)
    ensures forall w | w in c.data :: Load(heap.words, w) == c.data[w]
  {
    hide HeapOk, Separate, Owns, Untouched, Perform, Load, WordOf;
    ps, c := [], Client([], map[]);
    NothingOwned(heap.live);
    HeapSeparate(heap.Now());
    for i := 0 to |calls|
      invariant heap.Valid() && Separate(heap.live) && Owns(heap.live, c) && Remembers(heap.words, c.data)
      invariant |ps| == i && c == Performed(calls[..i], ps)
    {
      ghost var (live, words) := (heap.live, heap.words);
      var p := 0;
      PerformIs(c, calls[i]);
      match calls[i] {
        case Get(size) =>
          var inTable;
          ghost var open, found;
          p, inTable, open, found := heap.Malloc(size);
          StillRemembers(live, words, heap.words, c);
          if p != 0 {
            OwnsMore(live, c, p, size);
          }
        case Drop(k) =>
          if k < |c.held| {
            OwnsHeld(live, c, k);
            OwnsLess(live, c, k);
            LessRemembers(words, c, k);
            heap.Free(c.held[k].p);
            StillRemembers(heap.live, words, heap.words, Perform(c, calls[i], 0));
            HeapSeparate(heap.Now());
          }
        case Fill(k, offset, value) =>
          if k < |c.held| && offset < c.held[k].size {
            OwnsHeld(live, c, k);
            OwnsWritten(live, c, k, offset, value);
            heap.Write(c.held[k].p, c.held[k].p + offset, value);
            WrittenRemembers(words, c.data, WordOf(c.held[k].p + offset), value);
          }
      }
      PerformedNext(calls[..i], ps, calls[i], p);
      assert calls[..i + 1] == calls[..i] + [calls[i]];
      GotIs(c, calls[i], p);
      c := Perform(c, calls[i], p);
      ps := ps + [p];
    }
    assert calls[..|calls|] == calls;
  }

  lemma NothingOwned(live: map<nat, nat>)
    ensures Owns(live, Client([], map[]))
  {
  }

  lemma OwnsHeld(live: map<nat, nat>, c: Client, k: nat)
    requires Owns(live, c) && k < |c.held|
    ensures c.held[k].p in live && live[c.held[k].p] == c.held[k].size
  {
  }

  /** Only a call that gets an object depends on the pointer. */
  lemma GotIs(c: Client, call: Call, p: nat)
    ensures !call.Get? ==> Perform(c, call, p) == Perform(c, call, 0)
    ensures call.Get? && p != 0 ==> Perform(c, call, p) == c.(held := c.held + [Held(p, call.size)])
    ensures call.Get? && p == 0 ==> Perform(c, call, p) == c
  {
  }

  lemma PerformIs(c: Client, call: Call)
    ensures call.Drop? && call.k >= |c.held| ==> Perform(c, call, 0) == c
    ensures call.Fill? && (call.k >= |c.held| || call.offset >= c.held[call.k].size) ==> Perform(c, call, 0) == c
    ensures call.Fill? && call.k < |c.held| && call.offset < c.held[call.k].size ==>
              Perform(c, call, 0) == c.(data := c.data[WordOf(c.held[call.k].p + call.offset) := call.value])
  {
  }

  lemma LessRemembers(words: Words, c: Client, k: nat)
    requires Remembers(words, c.data) && k < |c.held|
    ensures Remembers(words, Perform(c, Drop(k), 0).data)
  {
  }

  lemma WrittenRemembers(words: Words, data: map<nat, nat>, a: nat, value: nat)
    requires Remembers(words, data)
    ensures Remembers(words[a := value], data[a := value])
  {
  }

  lemma PerformedNext(calls: seq<Call>, ps: seq<nat>, call: Call, p: nat)
    requires |calls| == |ps|
    ensures Performed(calls + [call], ps + [p]) == Perform(Performed(calls, ps), call, p)
  {
    hide Perform;
    assert (calls + [call])[..|calls|] == calls && (ps + [p])[..|ps|] == ps;
  }

  /** Objects of no size get a word. */
  function Object(size: nat): nat {
    if size == 0 then 8 else size
  }

  /** The page in use for the class of a size has a free block. */
  ghost predicate InUse(s: State, size: nat) {
    && ToSizeClass(size) < |s.pages| && s.pages[ToSizeClass(size)].Some?
    && var r := s.pages[ToSizeClass(size)].value;
       r in s.lists && r in s.meta && s.lists[r] != []
  }

  ghost function Top(s: State, size: nat): nat
    requires InUse(s, size)
  {
    s.lists[s.pages[ToSizeClass(size)].value][0]
  }

  /** The first `n` pages of a segment are all claimed, and none has a free block of the size. */
  ghost predicate Exhausted(s: State, seg: nat, n: nat, blockSize: nat) {
    forall i: nat | i < n && Ref(seg, i) in s.meta && Ref(seg, i) in s.lists ::
      s.meta[Ref(seg, i)].blockSize != 0 && (s.meta[Ref(seg, i)].blockSize == blockSize ==> s.lists[Ref(seg, i)] == [])
  }

  /** Neither the queued segment nor the system has a page left for blocks of the size. */
  ghost predicate NoRoom(s: State, blockSize: nat) {
    s.os == [] && forall k | 0 <= k < |s.queue| :: Exhausted(s, s.queue[k], NR_PAGES, blockSize)
  }

  /** The page has a free block of the size. */
  ghost predicate Has(s: State, r: Ref, blockSize: nat) {
    r in s.meta && r in s.lists && s.meta[r].blockSize == blockSize && s.lists[r] != []
  }

  /** A page was cut into as many blocks of the size as fit, the lowest in front, and no object was touched. */
  ghost predicate Claimed(s: State, s': State, r: Ref, blockSize: nat) {
    blockSize > 0 && s' == Carved(s, s'.words, r, Base(r), blockSize, Room(r) / blockSize)
    && Untouched(s.live, s.words, s'.words)
  }

  /** The page is the first of the segment that has a free block of the size or is unclaimed, and claimed then. */
  ghost predicate Found(s: State, s': State, seg: nat, r: Ref, blockSize: nat) {
    && r.seg == seg && r in s.meta && Exhausted(s, seg, r.idx, blockSize)
    && if s.meta[r].blockSize == 0 then Claimed(s, s', r, blockSize) else s' == s
  }

  /** The segment to look in is the queued one, if it has a page, and else the system's next. */
  ghost predicate Opens(s: State, s': State, seg: nat, blockSize: nat) {
    s'.queue == [seg]
    && if s.queue != [] && !Exhausted(s, s.queue[0], NR_PAGES, blockSize) then s' == s
       else Opened(s.(queue := []), s')
  }

  /** The page in use, or one found in the segment to look in, which is in use from then on. */
  ghost predicate Gets(s: State, open: State, s': State, r: Ref, size: nat) {
    && ToSizeClass(size) < |s.pages| && ToSizeClass(size) < |s'.pages| && s'.pages[ToSizeClass(size)] == Some(r)
    && if InUse(s, size) then s' == s
       else
         && Opens(s, open, r.seg, ToBlockSize(size)) && s'.pages == s.pages[ToSizeClass(size) := Some(r)]
         && Found(open, s'.(pages := s.pages), r.seg, r, ToBlockSize(size))
  }

  lemma NoneTouched(live: map<nat, nat>, words: Words)
    ensures Untouched(live, words, words)
  {
  }

  lemma FoundIn(s: State, s': State, seg: nat, r: Ref, blockSize: nat)
    requires Found(s, s', seg, r, blockSize)
    ensures r.seg == seg
  {
  }

  lemma GetsUntouched(s: State, open: State, s': State, r: Ref, size: nat)
    requires Gets(s, open, s', r, size)
    ensures s'.live == s.live && Untouched(s.live, s.words, s'.words)
  {
    hide Untouched, Added, WithLists, Exhausted, ToSizeClass, ToBlockSize, InUse;
    NoneTouched(s.live, s.words);
  }

  lemma ChainHead(words: Words, head: nat, list: seq<nat>)
    requires Chain(words, head, list) && list != []
    ensures head == list[0]
  {
  }

  lemma FirstBlock(r: Ref, blockSize: nat, capacity: nat)
    requires capacity > 0
    ensures Blocks(r, blockSize, 0, capacity)[0] == Base(r)
  {
  }

  lemma FreshSegment(s: State)
    requires HeapOk(s) && s.os != []
    ensures s.os[0] > 0 && forall j :: Ref(s.os[0], j) !in s.meta
  {
  }

  lemma AddedNone(meta: map<Ref, Meta>, seg: nat)
    requires forall j :: Ref(seg, j) !in meta
    ensures Added(meta, meta, seg, 0)
  {
    forall r | r in meta ensures r.seg != seg {
      assert r == Ref(r.seg, r.idx);
    }
  }

  lemma AddedNext(meta: map<Ref, Meta>, meta': map<Ref, Meta>, seg: nat, n: nat)
    requires Added(meta, meta', seg, n)
    ensures Added(meta, meta'[Ref(seg, n) := Meta(0, 0, 0, 0)], seg, n + 1)
  {
  }

  lemma AddedFirst(meta: map<Ref, Meta>, meta': map<Ref, Meta>, seg: nat)
    requires Added(meta, meta', seg, NR_PAGES)
    ensures Ref(seg, 0) in meta' && meta'[Ref(seg, 0)].blockSize == 0
  {
  }

  lemma TableSize(s: State)
    requires HeapOk(s)
    ensures |s.pages| == NUM_SIZE_CLASSES
  {
  }

  lemma ClassOf(s: State, size: nat)
    requires HeapOk(s) && 0 < size <= MAX_BLOCK
    ensures |s.pages| == NUM_SIZE_CLASSES && 0 < ToSizeClass(size) < NUM_SIZE_CLASSES
    ensures var r := s.pages[ToSizeClass(size)];
            r.Some? ==> r.value in s.meta && s.meta[r.value].blockSize == ToBlockSize(size)
  {
    hide PagesOk, LiveOk, QueueOk, SegmentsOk, SystemOk;
    BlockFits(size);
    ClassInRange(size);
  }

  lemma Retabled(s: State, size: nat, r: Ref)
    requires HeapOk(s) && 0 < size <= MAX_BLOCK && Has(s, r, ToBlockSize(size))
    requires |s.pages| == NUM_SIZE_CLASSES && 0 < ToSizeClass(size) < NUM_SIZE_CLASSES
    ensures HeapOk(s.(pages := s.pages[ToSizeClass(size) := Some(r)]))
  {
    hide PageOk, Partition, LiveOk, QueueOk, SegmentsOk;
    BlockFits(size);
  }

  lemma PageThere(s: State, seg: nat, i: nat)
    requires HeapOk(s) && Ref(seg, 0) in s.meta && i < NR_PAGES
    ensures Ref(seg, i) in s.meta
  {
  }

  lemma QueueThere(s: State)
    requires HeapOk(s)
    ensures |s.queue| <= 1 && (s.queue != [] ==> Ref(s.queue[0], 0) in s.meta)
  {
  }

  lemma Dequeued(s: State)
    requires HeapOk(s)
    ensures HeapOk(s.(queue := []))
  {
    hide PageOk, Partition, SegmentsOk, LiveOk, TableOk;
  }

  lemma BlockSizeOk(size: nat)
    requires 0 < size <= MAX_BLOCK
    ensures 8 <= ToBlockSize(size) <= MAX_BLOCK && ToBlockSize(size) % 8 == 0
  {
  }

  lemma RecordIs(s: State, r: Ref)
    requires HeapOk(s) && r in s.meta && s.meta[r].blockSize == 0
    ensures s.meta[r] == Meta(0, 0, 0, 0) && RefOk(r) && r in s.lists
  {
    hide IsBlock, Load;
  }

  lemma NothingCarved(words: Words, r: Ref, blockSize: nat, capacity: nat)
    ensures OnlyBlocks(words, words, r, blockSize, capacity) && Chain(words, 0, Blocks(r, blockSize, capacity, 0))
  {
  }

  lemma CapacityPositive(r: Ref, blockSize: nat)
    requires 8 <= blockSize <= MAX_BLOCK
    ensures Room(r) / blockSize > 0
  {
    DivPositive(Room(r), blockSize);
  }

  lemma StillOnly(words: Words, words': Words, r: Ref, blockSize: nat, capacity: nat, k: nat, value: nat)
    requires OnlyBlocks(words, words', r, blockSize, capacity) && blockSize > 0 && k < capacity
    ensures OnlyBlocks(words, words'[Addr(r, blockSize, k) := value], r, blockSize, capacity)
  {
    hide IsBlock, Addr;
    AddrIsBlock(r, blockSize, capacity, k);
  }
}
