/** Mapping a range of addresses with small and large pages. Addresses are numbers here, so that
    ranges of them can be compared; a page is mapped at the word that stands for its address. */
module MapRange {
  import opened Bytes
  import opened Arith
  import opened Words
  import opened Paging
  import opened PageTable

  const SMALL: nat := 0x1000
  const BIG: nat := 0x20_0000
  const V48: nat := 0x1_0000_0000_0000
  const P52: nat := 0x10_0000_0000_0000

  // ---------------------------------------------------------------- words and addresses

  lemma SplitSmall(a: nat, l: nat)
    requires a % SMALL == 0 && l < SMALL
    ensures W(a + l) == Or(W(a), W(l)) && Clear(W(a), 0xfff) && Within(W(l), 0xfff)
  {
    hide W, Or, Clear, Within, Low, Pow2;
    Pows();
    Lows();
    Split(a / SMALL, 12, l);
    Small(l, 12);
  }

  lemma SplitBig(a: nat, l: nat)
    requires a % BIG == 0 && l < BIG
    ensures W(a + l) == Or(W(a), W(l)) && Clear(W(a), 0x1f_ffff) && Within(W(l), 0x1f_ffff)
  {
    hide W, Or, Clear, Within, Low, Pow2;
    Pows();
    Lows();
    Split(a / BIG, 21, l);
    Small(l, 21);
  }

  lemma SplitTop(a: nat, l: nat)
    requires a % V48 == 0 && l < V48
    ensures W(a + l) == Or(W(a), W(l)) && Clear(W(a), 0xffff_ffff_ffff) && Within(W(l), 0xffff_ffff_ffff)
  {
    hide W, Or, Clear, Within, Low, Pow2;
    Pows();
    Lows();
    Split(a / V48, 48, l);
    Small(l, 48);
  }

  /** The start of the page of an address, without the bits the processor ignores. */
  function PageOf(v: nat): nat {
    v % V48 / SMALL * SMALL
  }

  function BlockOf(v: nat): nat {
    v % V48 / BIG * BIG
  }

  lemma Parts(v: nat)
    ensures v % V48 == PageOf(v) + v % SMALL && v % V48 == BlockOf(v) + v % BIG
    ensures PageOf(v) % SMALL == 0 && BlockOf(v) % BIG == 0
  {
    PagePart(v);
    BlockPart(v);
  }

  lemma PagePart(v: nat)
    ensures v % V48 == PageOf(v) + v % SMALL && PageOf(v) % SMALL == 0
  {
    assert 0x10_0000_0000 * SMALL == V48;
    ModOfMod(v, 0x10_0000_0000, SMALL, V48);
    ModUnique(PageOf(v), v % V48 / SMALL, SMALL, 0);
  }

  lemma BlockPart(v: nat)
    ensures v % V48 == BlockOf(v) + v % BIG && BlockOf(v) % BIG == 0
  {
    assert 0x800_0000 * BIG == V48;
    ModOfMod(v, 0x800_0000, BIG, V48);
    ModUnique(BlockOf(v), v % V48 / BIG, BIG, 0);
  }

  function PageStart(v: bv64): bv64 {
    v & 0x0000_ffff_ffff_f000
  }

  function BlockStart(v: bv64): bv64 {
    v & 0x0000_ffff_ffe0_0000
  }

  lemma Starts(v: bv64, w: bv64)
    ensures SamePage(v, w) <==> PageStart(v) == PageStart(w)
    ensures SameBlock(v, w) <==> BlockStart(v) == BlockStart(w)
  {
    hide SamePage, SameBlock, PageStart, BlockStart;
    if PageStart(v) == PageStart(w) {
      StartsPage(v, w);
    }
    if SamePage(v, w) {
      PageStarts(v, w);
    }
    if BlockStart(v) == BlockStart(w) {
      StartsBlock(v, w);
    }
    if SameBlock(v, w) {
      BlockStarts(v, w);
    }
  }

  lemma StartsPage(v: bv64, w: bv64)
    requires PageStart(v) == PageStart(w)
    ensures SamePage(v, w)
  {
  }

  lemma PageStarts(v: bv64, w: bv64)
    requires SamePage(v, w)
    ensures PageStart(v) == PageStart(w)
  {
  }

  lemma StartsBlock(v: bv64, w: bv64)
    requires BlockStart(v) == BlockStart(w)
    ensures SameBlock(v, w)
  {
  }

  lemma BlockStarts(v: bv64, w: bv64)
    requires SameBlock(v, w)
    ensures BlockStart(v) == BlockStart(w)
  {
  }

  lemma PageWord(v: nat)
    ensures PageStart(W(v)) == W(PageOf(v))
  {
    hide W, Or, Clear, Within, PageStart, PageOf, BlockOf;
    Parts(v);
    var (h, m, l) := (v / V48 * V48, PageOf(v), v % SMALL);
    SplitTop(h, m + l);
    SplitTop(h, m);
    SplitSmall(m, l);
    PageParts(W(h), W(m), W(l), W(m + l));
  }

  lemma PageParts(h: bv64, m: bv64, l: bv64, ml: bv64)
    requires Clear(h, 0xffff_ffff_ffff) && Within(m, 0xffff_ffff_ffff) && Clear(m, 0xfff) && Within(l, 0xfff)
    requires ml == Or(m, l)
    ensures PageStart(Or(h, ml)) == m
  {
  }

  lemma BlockWord(v: nat)
    ensures BlockStart(W(v)) == W(BlockOf(v))
  {
    hide W, Or, Clear, Within, BlockStart, PageOf, BlockOf;
    Parts(v);
    var (h, m, l) := (v / V48 * V48, BlockOf(v), v % BIG);
    SplitTop(h, m + l);
    SplitTop(h, m);
    SplitBig(m, l);
    BlockParts(W(h), W(m), W(l), W(m + l));
  }

  lemma BlockParts(h: bv64, m: bv64, l: bv64, ml: bv64)
    requires Clear(h, 0xffff_ffff_ffff) && Within(m, 0xffff_ffff_ffff) && Clear(m, 0x1f_ffff) && Within(l, 0x1f_ffff)
    requires ml == Or(m, l)
    ensures BlockStart(Or(h, ml)) == m
  {
  }

  lemma SamePageNumber(v: nat, o: nat)
    ensures SamePage(W(v), W(o)) <==> PageOf(v) == PageOf(o)
  {
    hide W, PageStart, SamePage, PageOf, BlockOf;
    Starts(W(v), W(o));
    Parts(v);
    Parts(o);
    PageWord(v);
    PageWord(o);
    if W(PageOf(v)) == W(PageOf(o)) {
      Injective(PageOf(v), PageOf(o));
    }
  }

  lemma SameBlockNumber(v: nat, o: nat)
    ensures SameBlock(W(v), W(o)) <==> BlockOf(v) == BlockOf(o)
  {
    hide W, BlockStart, SameBlock, PageOf, BlockOf;
    Starts(W(v), W(o));
    Parts(v);
    Parts(o);
    BlockWord(v);
    BlockWord(o);
    if W(BlockOf(v)) == W(BlockOf(o)) {
      Injective(BlockOf(v), BlockOf(o));
    }
  }

  lemma FrameWord(p: nat)
    requires p % SMALL == 0 && p < P52
    ensures IsFrame(W(p))
  {
    hide W, Clear, Within, Low, Pow2;
    Pows();
    Lows();
    Small(p, 52);
    SplitSmall(p, 0);
    FrameBits(W(p));
  }

  lemma FrameBits(p: bv64)
    requires Within(p, 0xf_ffff_ffff_ffff) && Clear(p, 0xfff)
    ensures IsFrame(p)
  {
  }

  /** A page at a frame translates to the sum. */
  lemma PageSum(p: nat, v: nat, access: Access)
    requires p % SMALL == 0 && p < P52
    ensures PageTranslation(W(p), access, W(v)) == Some(Translation(W(p + v % SMALL), access))
  {
    hide W, Or, Clear, Within, IsFrame, Mixed, PageTarget;
    SplitSmall(v - v % SMALL, v % SMALL);
    SplitSmall(p, v % SMALL);
    FrameWord(p);
    FrameAccess(W(p), access);
    SumParts(W(p), W(v - v % SMALL), W(v % SMALL));
  }

  lemma SumParts(p: bv64, h: bv64, l: bv64)
    requires Clear(h, 0xfff) && Within(l, 0xfff) && IsFrame(p)
    ensures PageTarget(p, Or(h, l)) == Or(p, l)
  {
    LowTwelve(h, l);
    FrameAddress(p);
  }

  lemma LowTwelve(h: bv64, l: bv64)
    requires h & 0xfff == 0 && l & !0xfff == 0
    ensures (h | l) & 0xfff == l
  {
  }

  /** A block at a multiple of 2 MiB translates to the sum. */
  lemma BlockSum(p: nat, v: nat, access: Access)
    requires p % BIG == 0 && p < P52
    ensures BlockTranslation(W(p), access, W(v)) == Some(Translation(W(p + v % BIG), access))
  {
    hide W, Or, Clear, Within, IsFrame, Mixed, BlockTarget, BlockFaults;
    SplitBig(v - v % BIG, v % BIG);
    SplitBig(p, v % BIG);
    FrameWord(p);
    FrameAccess(W(p), access);
    BlockSumParts(W(p), W(v - v % BIG), W(v % BIG));
  }

  lemma BlockSumParts(p: bv64, h: bv64, l: bv64)
    requires Clear(h, 0x1f_ffff) && Within(l, 0x1f_ffff) && Clear(p, 0x1f_ffff) && IsFrame(p)
    ensures !BlockFaults(p) && BlockTarget(p, Or(h, l)) == Or(p, l)
  {
    LowTwentyOne(h, l);
    AlignedBits(p);
  }

  lemma LowTwentyOne(h: bv64, l: bv64)
    requires h & 0x1f_ffff == 0 && l & !0x1f_ffff == 0
    ensures (h | l) & 0x1f_ffff == l
  {
  }

  // ---------------------------------------------------------------- ranges

  /** The processor ignores bits 48 to 63: the address it takes for `v` among those like `vaddr`. */
  function Like(vaddr: nat, v: nat): nat {
    vaddr / V48 * V48 + v % V48
  }

  /** The end of the addresses like `vaddr`. */
  function Top(vaddr: nat): nat {
    vaddr / V48 * V48 + V48
  }

  /** A request: where the range starts, what it is mapped to, and which part of it gets large pages. */
  datatype Range = Range(vaddr: nat, paddr: nat, prot: bv64, flags: bv64, largeStart: nat, largeEnd: nat) {
    function Permission(): Access {
      Requested(prot, flags)
    }
  }

  /** What `v` translates to when the range is mapped up to `end`: by a large page, by a small one, or as
      before. A large page at an unaligned physical address translates as the processor has it. User code gets
      through if the tables that were there are open. */
  ghost function RangeTranslation(mem: Memory, root: Page, q: Range, end: nat, v: nat): Option<Translation> {
    var r := Like(q.vaddr, v);
    if !(q.vaddr <= r < end) then Translate(mem, root, W(v))
    else Grant(Opened(mem, root, W(v)),
               if q.largeStart <= r < q.largeEnd && q.vaddr <= r - r % BIG
               then BlockTranslation(W(q.paddr + (r - r % BIG - q.vaddr)), q.Permission(), W(v))
               else Some(Translation(W(q.paddr + (r - q.vaddr)), q.Permission())))
  }

  /** Exactly the addresses from the start of the range to `end` translate differently. */
  ghost predicate RangeMapped(mem: Memory, mem': Memory, root: Page, q: Range, end: nat) {
    forall v: nat | v < U64 :: Translate(mem', root, W(v)) == RangeTranslation(mem, root, q, end, v)
  }

  /** What was asked for: each address to its match in the physical range. */
  ghost function RightTranslation(mem: Memory, root: Page, q: Range, end: nat, v: nat): Option<Translation> {
    var r := Like(q.vaddr, v);
    if !(q.vaddr <= r < end) then Translate(mem, root, W(v))
    else Some(Translation(W(q.paddr + (r - q.vaddr)), q.Permission()))
  }

  ghost predicate RightlyMapped(mem: Memory, mem': Memory, root: Page, q: Range, end: nat) {
    forall v: nat | v < U64 :: Translate(mem', root, W(v)) == RightTranslation(mem, root, q, end, v)
  }

  /** The physical range lies below 2^52 and both ranges start at pages. */
  predicate RangeOk(q: Range, end: nat) {
    && q.vaddr % SMALL == 0 && q.paddr % SMALL == 0 && q.vaddr <= end <= Top(q.vaddr) && end <= U64
    && q.paddr + (end - q.vaddr) <= P52
    && q.vaddr <= q.largeStart && q.largeStart % BIG == 0 && q.largeEnd % BIG == 0
  }

  /** A large page was mapped where the addresses differ modulo its size. */
  predicate Misplaced(q: Range, end: nat) {
    q.largeStart < q.largeEnd && q.largeStart < end && q.paddr % BIG != q.vaddr % BIG
  }

  /** The range is for user code, and a table that was there shuts it out of one of its addresses. */
  ghost predicate Shut(mem: Memory, root: Page, q: Range, end: nat) {
    q.Permission().user && exists r: nat :: q.vaddr <= r < end && !Opened(mem, root, W(r))
  }

  /** The code maps what was asked for exactly if no large page is misplaced and user code is not shut out. */
  lemma RightIff(mem: Memory, mem': Memory, root: Page, q: Range, end: nat)
    requires RangeOk(q, end) && RangeMapped(mem, mem', root, q, end)
    ensures RightlyMapped(mem, mem', root, q, end) <==> !Misplaced(q, end) && !Shut(mem, root, q, end)
  {
    hide W, Translate, BlockTranslation, Like, Top, RangeTranslation, RightTranslation, Requested, Opened, Grant;
    if Misplaced(q, end) {
      FirstBlockWrong(mem, root, q, end);
      assert Translate(mem', root, W(q.largeStart)) == RangeTranslation(mem, root, q, end, q.largeStart);
    } else if Shut(mem, root, q, end) {
      var r :| q.vaddr <= r < end && !Opened(mem, root, W(r));
      PlaceRight(mem, root, q, end, r);
      ShutWrong(mem, root, q, end, r);
      assert Translate(mem', root, W(r)) == RangeTranslation(mem, root, q, end, r);
    } else {
      forall v: nat | v < U64
        ensures Translate(mem', root, W(v)) == RightTranslation(mem, root, q, end, v)
      {
        PlaceRight(mem, root, q, end, v);
        if q.vaddr <= Like(q.vaddr, v) < end {
          OpenRight(mem, root, q, end, v);
        }
      }
    }
  }

  /** Without misplaced pages only user code can be kept from what was asked for. */
  lemma PlaceRight(mem: Memory, root: Page, q: Range, end: nat, v: nat)
    requires RangeOk(q, end) && !Misplaced(q, end)
    ensures RangeTranslation(mem, root, q, end, v) ==
            if q.vaddr <= Like(q.vaddr, v) < end
            then Grant(Opened(mem, root, W(v)), RightTranslation(mem, root, q, end, v))
            else RightTranslation(mem, root, q, end, v)
  {
    hide W, Translate, BlockTranslation, Top, Grant, Opened, Requested;
    var r := Like(q.vaddr, v);
    if q.vaddr <= r < end && q.largeStart <= r < q.largeEnd && q.vaddr <= r - r % BIG {
      LikeBlock(q.vaddr, v);
      var o := r - r % BIG;
      ModUnique(o, r / BIG, BIG, 0);
      Match(q.paddr, q.vaddr, o, BIG);
      BlockSum(q.paddr + (o - q.vaddr), v, q.Permission());
    }
  }

  lemma ShutWrong(mem: Memory, root: Page, q: Range, end: nat, r: nat)
    requires RangeOk(q, end) && q.vaddr <= r < end && q.Permission().user
    ensures r < U64 && Like(q.vaddr, r) == r
    ensures Grant(false, RightTranslation(mem, root, q, end, r)) != RightTranslation(mem, root, q, end, r)
  {
    hide W, Translate, Requested;
    LikeSelf(q.vaddr, r);
  }

  lemma OpenRight(mem: Memory, root: Page, q: Range, end: nat, v: nat)
    requires RangeOk(q, end) && !Shut(mem, root, q, end) && q.vaddr <= Like(q.vaddr, v) < end
    ensures Grant(Opened(mem, root, W(v)), RightTranslation(mem, root, q, end, v))
            == RightTranslation(mem, root, q, end, v)
  {
    hide W, Translate, Requested, Opened, Like;
    LikeOpened(mem, root, q.vaddr, v);
    assert q.Permission().user ==> Opened(mem, root, W(Like(q.vaddr, v)));
  }

  /** Bits 48 to 63 make no difference to the way of an address. */
  lemma LikeOpened(mem: Memory, root: Page, vaddr: nat, v: nat)
    ensures Opened(mem, root, W(Like(vaddr, v))) == Opened(mem, root, W(v))
  {
    hide W, WayFrom, AllOpen, SameBlock, BlockOf;
    SameBlockNumber(Like(vaddr, v), v);
    LikeBlockOf(vaddr, v);
    SameBlockCommon(W(Like(vaddr, v)), W(v));
    BlockFrom(mem, root, 0, W(v), W(Like(vaddr, v)));
  }

  lemma LikeBlockOf(vaddr: nat, v: nat)
    ensures BlockOf(Like(vaddr, v)) == BlockOf(v)
  {
    ModUnique(Like(vaddr, v), vaddr / V48, V48, v % V48);
  }

  lemma SameBlockCommon(v: bv64, w: bv64)
    ensures SameBlock(v, w) <==> Common(v, w) == 3
  {
    hide SameBlock, Pml4Index, PdptIndex, PdIndex;
    BlockIndices(v, w);
  }

  lemma LikeBlock(vaddr: nat, v: nat)
    ensures Like(vaddr, v) % BIG == v % BIG
  {
    hide PageOf, BlockOf;
    Parts(v);
    var k := BlockOf(v) / BIG;
    ModUnique(Like(vaddr, v), vaddr / V48 * 0x800_0000 + k, BIG, v % BIG);
  }

  lemma FirstBlockWrong(mem: Memory, root: Page, q: Range, end: nat)
    requires RangeOk(q, end) && Misplaced(q, end)
    ensures q.largeStart < U64
    ensures RangeTranslation(mem, root, q, end, q.largeStart) != RightTranslation(mem, root, q, end, q.largeStart)
  {
    hide W, Translate, BlockTranslation, Requested, Opened;
    var o := q.largeStart;
    LikeSelf(q.vaddr, o);
    Mismatch(q.paddr, q.vaddr, o);
    BlockMissed(q.paddr + (o - q.vaddr), o, q.Permission(), Opened(mem, root, W(o)));
  }

  lemma LikeSelf(vaddr: nat, o: nat)
    requires vaddr <= o < Top(vaddr)
    ensures Like(vaddr, o) == o
  {
    ModUnique(o, vaddr / V48, V48, o - vaddr / V48 * V48);
  }

  /** A block at any other page translates its first address to another one, or not at all. */
  lemma BlockMissed(p: nat, v: nat, access: Access, open: bool)
    requires p % SMALL == 0 && p % BIG != 0 && p < P52 && v % BIG == 0
    ensures Grant(open, BlockTranslation(W(p), access, W(v))) != Some(Translation(W(p), access))
  {
    hide W, Or, Clear, Within, BlockTarget, BlockFaults;
    SplitBig(p - p % BIG, p % BIG);
    SplitBig(v, 0);
    if W(p % BIG) == 0 {
      OnlyZero(p % BIG);
    }
    MissedParts(W(p - p % BIG), W(p % BIG), W(v));
  }

  lemma OnlyZero(n: nat)
    requires n < V48 && W(n) == 0
    ensures n == 0
  {
    hide W;
    WZero();
    Injective(n, 0);
  }

  lemma MissedParts(h: bv64, l: bv64, v: bv64)
    requires Clear(h, 0x1f_ffff) && Within(l, 0x1f_ffff) && l != 0 && Clear(v, 0x1f_ffff)
    ensures BlockTarget(Or(h, l), v) != Or(h, l)
  {
  }

  /** Every address there is has a number below 2^64. */
  lemma EveryAddress(v: bv64)
    ensures Value(v, 64) < U64 && W(Value(v, 64)) == v
  {
    hide W, Low, Pow2, Within, Value;
    Pows();
    Lows();
    AllBits(v);
    WValue(v, 64);
  }

  lemma AllBits(v: bv64)
    ensures Within(v, 0xffff_ffff_ffff_ffff)
  {
  }

  /** An address of those like `vaddr` is its offset from their start. */
  lemma OffsetIn(vaddr: nat, o: nat)
    requires vaddr <= o < Top(vaddr)
    ensures o == vaddr / V48 * V48 + o % V48
  {
    DivMod(vaddr, V48);
    ModUnique(o, vaddr / V48, V48, o - vaddr / V48 * V48);
  }

  lemma PageRange(vaddr: nat, o: nat, v: nat)
    requires vaddr <= o && o % SMALL == 0 && o + SMALL <= Top(vaddr)
    ensures PageOf(v) == PageOf(o) <==> o <= Like(vaddr, v) < o + SMALL
    ensures PageOf(v) == PageOf(o) ==> Like(vaddr, v) == o + v % SMALL
  {
    hide PageOf;
    PagePart(v);
    PagePart(o);
    OffsetIn(vaddr, o);
    SameMultiple(PageOf(v), PageOf(o), v % SMALL, SMALL);
  }

  lemma BlockRange(vaddr: nat, o: nat, v: nat)
    requires vaddr <= o && o % BIG == 0 && o + BIG <= Top(vaddr)
    ensures BlockOf(v) == BlockOf(o) <==> o <= Like(vaddr, v) < o + BIG
    ensures BlockOf(v) == BlockOf(o) ==> Like(vaddr, v) == o + v % BIG
  {
    hide BlockOf;
    BlockPart(v);
    BlockPart(o);
    OffsetIn(vaddr, o);
    SameMultiple(BlockOf(v), BlockOf(o), v % BIG, BIG);
  }

  /** A range for user code leaves what is open and what is not. */
  ghost predicate SameOpen(mem: Memory, mem': Memory, root: Page, q: Range) {
    q.Permission().user ==> forall v :: Opened(mem', root, v) == Opened(mem, root, v)
  }

  lemma SmallStep(mem: Memory, m1: Memory, m2: Memory, root: Page, q: Range, o: nat)
    requires q.vaddr <= o && o % SMALL == 0 && o + SMALL <= Top(q.vaddr)
    requires (q.paddr + (o - q.vaddr)) % SMALL == 0 && q.paddr + (o - q.vaddr) < P52
    requires o + SMALL <= q.largeStart || q.largeEnd <= o || q.largeEnd <= q.largeStart
    requires RangeMapped(mem, m1, root, q, o) && SameOpen(mem, m2, root, q)
    requires MapsPage(m1, m2, root, W(o), W(q.paddr + (o - q.vaddr)), q.Permission())
    ensures RangeMapped(mem, m2, root, q, o + SMALL)
  {
    hide W, Translate, SamePage, PageOf, PageTranslation, Like, Top, BlockTranslation, RangeTranslation, Opened, Grant,
         Requested;
    forall v: nat | v < U64
      ensures Translate(m2, root, W(v)) == RangeTranslation(mem, root, q, o + SMALL, v)
    {
      SamePageNumber(v, o);
      PageSum(q.paddr + (o - q.vaddr), v, q.Permission());
      PageExtends(mem, root, q, o, v);
      GrantSame(Opened(m2, root, W(v)), Opened(mem, root, W(v)), W(q.paddr + (o - q.vaddr) + v % SMALL),
                q.Permission());
    }
  }

  /** What is not for user code does not depend on what is open to it. */
  lemma GrantSame(a: bool, b: bool, paddr: bv64, access: Access)
    requires access.user ==> a == b
    ensures Grant(a, Some(Translation(paddr, access))) == Grant(b, Some(Translation(paddr, access)))
  {
  }

  /** One more page changes what the range says of exactly that page. */
  lemma PageExtends(mem: Memory, root: Page, q: Range, o: nat, v: nat)
    requires q.vaddr <= o && o % SMALL == 0 && o + SMALL <= Top(q.vaddr)
    requires o + SMALL <= q.largeStart || q.largeEnd <= o || q.largeEnd <= q.largeStart
    ensures RangeTranslation(mem, root, q, o + SMALL, v) ==
            if PageOf(v) == PageOf(o)
            then Grant(Opened(mem, root, W(v)),
                       Some(Translation(W(q.paddr + (o - q.vaddr) + v % SMALL), q.Permission())))
            else RangeTranslation(mem, root, q, o, v)
  {
    hide W, Translate, PageOf, Like, Top, BlockTranslation, Grant, Opened, Requested;
    PageRange(q.vaddr, o, v);
  }

  lemma BigStep(mem: Memory, m1: Memory, m2: Memory, root: Page, q: Range, o: nat)
    requires q.vaddr <= q.largeStart <= o && o % BIG == 0 && o + BIG <= q.largeEnd && o + BIG <= Top(q.vaddr)
    requires (q.paddr + (o - q.vaddr)) % SMALL == 0 && q.paddr + (o - q.vaddr) < P52
    requires RangeMapped(mem, m1, root, q, o) && SameOpen(mem, m2, root, q)
    requires MapsBlock(m1, m2, root, W(o), W(q.paddr + (o - q.vaddr)), q.Permission())
    ensures RangeMapped(mem, m2, root, q, o + BIG)
  {
    hide W, Translate, SameBlock, BlockOf, BlockTranslation, Like, Top, RangeTranslation, Opened, Grant, Requested;
    forall v: nat | v < U64
      ensures Translate(m2, root, W(v)) == RangeTranslation(mem, root, q, o + BIG, v)
    {
      SameBlockNumber(v, o);
      BlockExtends(mem, root, q, o, v);
      BlockSame(Opened(m2, root, W(v)), Opened(mem, root, W(v)), q.paddr + (o - q.vaddr), q.Permission(), W(v));
    }
  }

  lemma BlockSame(a: bool, b: bool, p: nat, access: Access, v: bv64)
    requires p % SMALL == 0 && p < P52 && (access.user ==> a == b)
    ensures Grant(a, BlockTranslation(W(p), access, v)) == Grant(b, BlockTranslation(W(p), access, v))
  {
    hide W, IsFrame, Mixed, BlockTarget, BlockFaults;
    FrameWord(p);
    FrameAccess(W(p), access);
  }

  lemma BlockExtends(mem: Memory, root: Page, q: Range, o: nat, v: nat)
    requires q.vaddr <= q.largeStart <= o && o % BIG == 0 && o + BIG <= q.largeEnd && o + BIG <= Top(q.vaddr)
    ensures RangeTranslation(mem, root, q, o + BIG, v) ==
            if BlockOf(v) == BlockOf(o)
            then Grant(Opened(mem, root, W(v)), BlockTranslation(W(q.paddr + (o - q.vaddr)), q.Permission(), W(v)))
            else RangeTranslation(mem, root, q, o, v)
  {
    hide W, Translate, BlockOf, BlockTranslation, Like, Top, Grant, Opened, Requested;
    BlockRange(q.vaddr, o, v);
    if BlockOf(v) == BlockOf(o) {
      ModUnique(Like(q.vaddr, v), o / BIG, BIG, v % BIG);
    }
  }

  lemma NothingMapped(mem: Memory, root: Page, q: Range)
    ensures RangeMapped(mem, mem, root, q, q.vaddr)
  {
    hide W, Translate;
  }

  lemma SameMapped(mem: Memory, m1: Memory, m2: Memory, root: Page, q: Range, o: nat)
    requires RangeMapped(mem, m1, root, q, o) && SameTranslations(m1, m2, root)
    ensures RangeMapped(mem, m2, root, q, o)
  {
    hide W, Translate, RangeTranslation;
  }

  // ---------------------------------------------------------------- alignment

  /** Aligning up as the code does it, with the sum taken modulo 2^64. */
  function WrappedAlignUp(x: nat, align: nat): nat
    requires align > 0
  {
    AlignDown((x + align - 1) % U64, align)
  }

  /** It rounds up exactly if the sum does not wrap around. */
  lemma AlignUpRight(x: nat)
    requires x < U64
    ensures WrappedAlignUp(x, BIG) == AlignUp(x, BIG) <==> x + BIG - 1 < U64
    ensures x <= WrappedAlignUp(x, BIG) <==> x + BIG - 1 < U64
    ensures x + BIG - 1 < U64 ==> WrappedAlignUp(x, BIG) < x + BIG && WrappedAlignUp(x, BIG) % BIG == 0
  {
    hide AlignDown;
    var s := x + BIG - 1;
    RoundsDown(s, BIG);
    if s < U64 {
      ModUnique(s, 0, U64, s);
    } else {
      ModUnique(s, 1, U64, s - U64);
      ModUnique(s - U64, 0, BIG, s - U64);
      DownOf(s - U64, BIG);
    }
  }

  lemma DownOf(x: nat, b: nat)
    requires b > 0
    ensures AlignDown(x, b) == x - x % b
  {
  }

  /** In the last 2 MiB but one page it gives zero. */
  lemma AlignUpWraps()
    ensures WrappedAlignUp(0xffff_ffff_ffe0_1000, BIG) == 0
  {
  }

  /** The next page boundary. */
  function PageEnd(x: nat): nat {
    AlignUp(x, SMALL)
  }

  // ---------------------------------------------------------------- mapping

  /** The request for the page at `o`. */
  function RequestAt(q: Range, o: nat): Request
    requires q.vaddr <= o
  {
    Request(q.largeStart <= o < q.largeEnd, W(o), W(q.paddr + (o - q.vaddr)), q.prot, q.flags)
  }

  /** The requests for the pages before `o`. */
  function Asked(q: Range, o: nat): seq<Request> {
    if o < q.vaddr + SMALL then []
    else if q.vaddr <= q.largeStart && q.largeStart + BIG <= o <= q.largeEnd
    then Asked(q, o - BIG) + [RequestAt(q, o - BIG)]
    else Asked(q, o - SMALL) + [RequestAt(q, o - SMALL)]
  }

  /** What stands of a range when the addresses before `o` are mapped on tables in `mem` with `free` free pages. */
  ghost predicate Progress(mmu: Mmu, mem: Memory, free: nat, q: Range, o: nat)
    reads mmu
  {
    && mmu.Valid() && RangeMapped(mem, mmu.mem, mmu.root, q, o) && SameOpen(mem, mmu.mem, mmu.root, q)
    && Led(mem, mmu.root, Asked(q, o), free, mmu.State()) && AllGranted(mem, mmu.root, Asked(q, o), free)
  }

  /** The page at `o` was refused. */
  ghost predicate Refused(mem: Memory, root: Page, free: nat, q: Range, o: nat, err: int)
    requires q.vaddr <= o
  {
    err != 0 && err == AnswerAfter(mem, root, Asked(q, o), free, RequestAt(q, o))
  }

  /** One more request was answered. */
  lemma OneMore(mem: Memory, root: Page, free: nat, q: Range, o: nat, o': nat, s: Tables, s': Tables, err: int)
    requires q.vaddr <= o && Asked(q, o') == Asked(q, o) + [RequestAt(q, o)]
    requires SameOpen(mem, s.mem, root, q)
    requires Led(mem, root, Asked(q, o), free, s) && AllGranted(mem, root, Asked(q, o), free)
    requires Answered(s, s', root, RequestAt(q, o), err)
    ensures err == AnswerAfter(mem, root, Asked(q, o), free, RequestAt(q, o)) && SameOpen(mem, s'.mem, root, q)
    ensures Led(mem, root, Asked(q, o'), free, s') && (err == 0 ==> AllGranted(mem, root, Asked(q, o'), free))
  {
    hide W, Led, Answered, Opened, AnswerAfter, Asked, Requested;
    var (rs, r) := (Asked(q, o), RequestAt(q, o));
    LedOn(mem, root, rs, free, s, s', r, err);
    if q.Permission().user {
      forall v ensures Opened(s'.mem, root, v) == Opened(mem, root, v) {
        OpenKept(s, s', root, r, err, v);
      }
    }
    if err == 0 {
      forall i | 0 <= i < |rs + [r]| ensures AnswerAfter(mem, root, (rs + [r])[..i], free, (rs + [r])[i]) == 0 {
        assert (rs + [r])[..i] == if i < |rs| then rs[..i] else rs;
      }
    }
  }

  lemma AskedSmall(q: Range, o: nat)
    requires q.vaddr <= o && (o + SMALL <= q.largeStart || q.largeEnd <= o || q.largeEnd <= q.largeStart)
    ensures Asked(q, o + SMALL) == Asked(q, o) + [RequestAt(q, o)]
    ensures RequestAt(q, o) == Request(false, W(o), W(q.paddr + (o - q.vaddr)), q.prot, q.flags)
    ensures o % SMALL == 0 ==> Edge(q, o)
  {
    hide W;
  }

  lemma AskedLarge(q: Range, o: nat)
    requires q.vaddr <= q.largeStart <= o && o + BIG <= q.largeEnd
    ensures Asked(q, o + BIG) == Asked(q, o) + [RequestAt(q, o)]
    ensures RequestAt(q, o) == Request(true, W(o), W(q.paddr + (o - q.vaddr)), q.prot, q.flags)
    ensures o % BIG == 0 ==> Edge(q, o)
  {
    hide W;
    if o % BIG == 0 {
      BigIsSmall(o);
    }
  }

  /** Maps small pages from `start` until `end` is passed. */
  method MapSmallRun(mmu: Mmu, start: nat, end: nat, physStart: nat, prot: bv64, flags: bv64,
                     ghost mem: Memory, ghost free: nat, ghost q: Range)
      returns (err: int, phys: nat, ghost done: nat)
    requires q.vaddr <= start <= PageEnd(end) <= Top(q.vaddr) && start % SMALL == 0
    requires PageEnd(end) <= q.largeStart || q.largeEnd <= start || q.largeEnd <= q.largeStart
    requires physStart == q.paddr + (start - q.vaddr) && physStart % SMALL == 0
    requires q.paddr + (PageEnd(end) - q.vaddr) <= P52 && q.prot == prot && q.flags == flags
    requires Progress(mmu, mem, free, q, start)
    modifies mmu
    ensures start <= done <= PageEnd(end) && (err == 0 <==> done == PageEnd(end)) && phys == q.paddr + (done - q.vaddr)
    ensures err == 0 ==> Progress(mmu, mem, free, q, done)
    ensures err != 0 ==> Stopped(mmu, mem, free, q, done, err)
  {
    hide RangeMapped, W, Top, MapsPage, SameTranslations, Contained, Requested, Sound, IsFrame, PageEnd, Led,
         AllGranted, Asked, Answered, SameOpen, AnswerAfter, RequestAt, Edge;
    var offset := start;
    phys := physStart;
    while offset < end
      invariant start <= offset <= PageEnd(end) && offset % SMALL == 0
      invariant phys == q.paddr + (offset - q.vaddr) && phys % SMALL == 0
      invariant Progress(mmu, mem, free, q, offset)
    {
      PageStep(offset, end);
      AskedSmall(q, offset);
      ghost var s := mmu.State();
      err := mmu.MapSmallPage(W(offset), W(phys), prot, flags);
      OneMore(mem, mmu.root, free, q, offset, offset + SMALL, s, mmu.State(), err);
      AnswerMeans(s, mmu.State(), mmu.root, RequestAt(q, offset), err);
      if err != 0 {
        SameMapped(mem, s.mem, mmu.mem, mmu.root, q, offset);
        done := offset;
        return;
      }
      SmallStep(mem, s.mem, mmu.mem, mmu.root, q, offset);
      NextPage(phys);
      phys := phys + SMALL;
      offset := offset + SMALL;
    }
    RunEnd(offset, end);
    return 0, phys, offset;
  }

  /** Mapping stopped at a page that was refused: what is mapped are the pages before it. */
  ghost predicate Stopped(mmu: Mmu, mem: Memory, free: nat, q: Range, o: nat, err: int)
    reads mmu
    requires q.vaddr <= o
  {
    && mmu.Valid() && RangeMapped(mem, mmu.mem, mmu.root, q, o)
    && AllGranted(mem, mmu.root, Asked(q, o), free) && Refused(mem, mmu.root, free, q, o, err) && Edge(q, o)
  }

  lemma AnswerMeans(s: Tables, s': Tables, root: Page, r: Request, err: int)
    requires Answered(s, s', root, r, err)
    ensures err != 0 ==> SameTranslations(s.mem, s'.mem, root)
    ensures err == 0 && r.large ==> MapsBlock(s.mem, s'.mem, root, r.vaddr, r.paddr, Requested(r.prot, r.flags))
    ensures err == 0 && !r.large ==> MapsPage(s.mem, s'.mem, root, r.vaddr, r.paddr, Requested(r.prot, r.flags))
  {
    hide SameTranslations, MapsBlock, MapsPage, Requested, WayOf, Changes;
  }

  lemma PageStep(offset: nat, end: nat)
    requires offset % SMALL == 0 && offset < end
    ensures offset + SMALL <= PageEnd(end) && (offset + SMALL) % SMALL == 0
  {
    hide AlignDown;
    NextPage(offset);
    RoundsDown(end + SMALL - 1, SMALL);
    var e := PageEnd(end);
    DivMod(e, SMALL);
    DivMod(offset, SMALL);
    Apart(offset / SMALL, e / SMALL, SMALL);
  }

  lemma RunEnd(offset: nat, end: nat)
    requires offset % SMALL == 0 && offset <= PageEnd(end)
    ensures offset >= end ==> offset == PageEnd(end)
  {
    hide AlignDown;
    RoundsDown(end + SMALL - 1, SMALL);
    SameMultiple(offset, PageEnd(end), SMALL - 1, SMALL);
  }

  lemma NextPage(p: nat)
    requires p % SMALL == 0
    ensures (p + SMALL) % SMALL == 0
  {
    DivMod(p, SMALL);
    ModUnique(p + SMALL, p / SMALL + 1, SMALL, 0);
  }

  /** Maps large pages from `start` to `end`. */
  method MapLargeRun(mmu: Mmu, start: nat, end: nat, physStart: nat, prot: bv64, flags: bv64,
                     ghost mem: Memory, ghost free: nat, ghost q: Range)
      returns (err: int, phys: nat, ghost done: nat)
    requires q.vaddr <= start <= end <= Top(q.vaddr) && start % BIG == 0 && end % BIG == 0
    requires start == q.largeStart && end == q.largeEnd
    requires physStart == q.paddr + (start - q.vaddr) && physStart % SMALL == 0
    requires q.paddr + (end - q.vaddr) <= P52 && q.prot == prot && q.flags == flags
    requires Progress(mmu, mem, free, q, start)
    modifies mmu
    ensures start <= done <= end && (err == 0 <==> done == end) && phys == q.paddr + (done - q.vaddr)
    ensures err == 0 ==> Progress(mmu, mem, free, q, done)
    ensures err != 0 ==> Stopped(mmu, mem, free, q, done, err)
  {
    hide RangeMapped, W, Top, MapsBlock, SameTranslations, Contained, Requested, Sound, IsFrame, Led, AllGranted, Asked,
         Answered, SameOpen, AnswerAfter, RequestAt, Edge;
    var offset := start;
    phys := physStart;
    while offset < end
      invariant start <= offset <= end && offset % BIG == 0
      invariant phys == q.paddr + (offset - q.vaddr) && phys % SMALL == 0
      invariant Progress(mmu, mem, free, q, offset)
    {
      BlockStep(offset, end);
      AskedLarge(q, offset);
      ghost var s := mmu.State();
      err := mmu.MapLargePage(W(offset), W(phys), prot, flags);
      OneMore(mem, mmu.root, free, q, offset, offset + BIG, s, mmu.State(), err);
      AnswerMeans(s, mmu.State(), mmu.root, RequestAt(q, offset), err);
      if err != 0 {
        SameMapped(mem, s.mem, mmu.mem, mmu.root, q, offset);
        done := offset;
        return;
      }
      BigStep(mem, s.mem, mmu.mem, mmu.root, q, offset);
      NextBlock(phys);
      phys := phys + BIG;
      offset := offset + BIG;
    }
    return 0, phys, offset;
  }

  lemma BlockStep(offset: nat, end: nat)
    requires offset % BIG == 0 && end % BIG == 0 && offset < end
    ensures offset + BIG <= end && (offset + BIG) % BIG == 0
  {
    DivMod(end, BIG);
    DivMod(offset, BIG);
    Apart(offset / BIG, end / BIG, BIG);
    ModUnique(offset + BIG, offset / BIG + 1, BIG, 0);
  }

  lemma NextBlock(p: nat)
    requires p % SMALL == 0
    ensures (p + BIG) % SMALL == 0
  {
    ModUnique(p + BIG, p / SMALL + 512, SMALL, 0);
  }

  lemma BigIsSmall(x: nat)
    requires x % BIG == 0
    ensures x % SMALL == 0
  {
    ModUnique(x, x / BIG * 512, SMALL, 0);
  }

  /** Maps a range: small pages up to a 2 MiB boundary, large pages, small pages for the rest. What
      is mapped depends only on the range, and a failure leaves exactly the pages before the first one that is
      refused mapped. The call succeeds exactly if no block of the range is in use for pages of the other size and
      there are as many free pages as tables to make. What is mapped is what was asked for exactly if no large page
      is misplaced and user code is not shut out. */
  method MapAddressRange(mmu: Mmu, vaddr: nat, paddr: nat, size: nat, prot: bv64, flags: bv64)
      returns (err: int, ghost done: nat)
    requires mmu.Valid() && paddr % SMALL == 0
    requires vaddr + BIG - 1 < U64 && PageEnd(vaddr + size) < U64 && PageEnd(vaddr + size) <= Top(vaddr)
    requires paddr + (PageEnd(vaddr + size) - vaddr) <= P52
    modifies mmu
    ensures mmu.Valid()
    ensures vaddr % SMALL != 0 ==> err == -EINVAL && mmu.State() == old(mmu.State())
    ensures vaddr % SMALL == 0 ==>
              var (q, end) := (Requests(vaddr, paddr, size, prot, flags), PageEnd(vaddr + size));
              && vaddr <= done <= end && (err == 0 <==> done == end)
              && RangeMapped(old(mmu.mem), mmu.mem, mmu.root, q, done)
              && (RightlyMapped(old(mmu.mem), mmu.mem, mmu.root, q, done)
                  <==> !Misplaced(q, done) && !Shut(old(mmu.mem), mmu.root, q, done))
              && AllGranted(old(mmu.mem), mmu.root, Asked(q, done), |old(mmu.free)|)
              && (err != 0 ==> Refused(old(mmu.mem), mmu.root, |old(mmu.free)|, q, done, err))
              && (err == 0 <==>
                  && Compatible(old(mmu.mem), mmu.root, Asked(q, end))
                  && TablesFor(old(mmu.mem), mmu.root, Asked(q, end)) <= |old(mmu.free)|)
  {
    hide RangeMapped, RightlyMapped, Top, Requested, Sound, PageEnd, Requests, Misplaced, RangeOk, Shut, AllGranted,
         Refused, Asked, Compatible, TablesFor;
    if vaddr % SMALL != 0 {
      return -EINVAL, vaddr;
    }
    ghost var (mem, free) := (mmu.mem, |mmu.free|);
    ghost var q := Requests(vaddr, paddr, size, prot, flags);
    err, done := MapRuns(mmu, vaddr, paddr, size, prot, flags);
    RequestOk(vaddr, paddr, size, prot, flags, done);
    RightIff(mem, mmu.mem, mmu.root, q, done);
    RequestOk(vaddr, paddr, size, prot, flags, PageEnd(vaddr + size));
    RequestEdge(vaddr, paddr, size, prot, flags);
    WholeRange(mem, mmu.root, free, q, done, PageEnd(vaddr + size), err);
  }

  /** The range a call asks for. */
  function Requests(vaddr: nat, paddr: nat, size: nat, prot: bv64, flags: bv64): Range {
    Range(vaddr, paddr, prot, flags, WrappedAlignUp(vaddr, BIG), AlignDown(vaddr + size, BIG))
  }

  /** The call succeeded exactly if all requests for the range would be granted. */
  lemma WholeRange(mem: Memory, root: Page, free: nat, q: Range, done: nat, end: nat, err: int)
    requires RangeOk(q, end) && Edge(q, end) && q.vaddr <= done <= end && (err == 0 <==> done == end)
    requires AllGranted(mem, root, Asked(q, done), free)
    requires err != 0 ==> Refused(mem, root, free, q, done, err) && Edge(q, done)
    ensures err == 0 <==> Compatible(mem, root, Asked(q, end)) && TablesFor(mem, root, Asked(q, end)) <= free
  {
    hide Asked, AnswerAfter, Compatible, TablesFor, Unmixed, W, Top;
    AskedUnmixed(q, end);
    GrantedIff(mem, root, Asked(q, end), free);
    if err != 0 {
      AskedPrefix(q, done, end);
      var (rs, i) := (Asked(q, end), |Asked(q, done)|);
      assert rs[..i] == Asked(q, done) && AnswerAfter(mem, root, rs[..i], free, rs[i]) != 0;
    }
  }

  /** A place between two pages of the range. */
  predicate Edge(q: Range, o: nat) {
    o % SMALL == 0 && (q.largeStart < o < q.largeEnd ==> o % BIG == 0)
  }

  /** Where the last page before an edge starts. */
  function PageBefore(q: Range, o: nat): int {
    if q.largeStart + BIG <= o <= q.largeEnd then o - BIG else o - SMALL
  }

  lemma EdgeBefore(q: Range, o: nat, e: nat)
    requires q.vaddr % SMALL == 0 && q.vaddr <= q.largeStart && q.largeStart % BIG == 0 && q.largeEnd % BIG == 0
    requires Edge(q, e) && q.vaddr < e && q.vaddr <= o < e && Edge(q, o)
    ensures var p := PageBefore(q, e);
            && q.vaddr <= o <= p < e && Edge(q, p) && e >= q.vaddr + SMALL
            && (q.largeStart <= p < q.largeEnd <==> q.largeStart + BIG <= e <= q.largeEnd)
            && (q.largeStart <= p < q.largeEnd ==> p % BIG == 0 && p + BIG <= q.largeEnd)
  {
    PageApart(o, e);
    PageApart(q.vaddr, e);
    if q.largeStart + BIG <= e <= q.largeEnd {
      BeforeBlock(q, o, e);
    } else {
      BeforePage(q, e);
    }
  }

  lemma PageApart(x: nat, y: nat)
    requires x % SMALL == 0 && y % SMALL == 0 && x < y
    ensures x + SMALL <= y
  {
    DivMod(x, SMALL);
    DivMod(y, SMALL);
    Apart(x / SMALL, y / SMALL, SMALL);
  }

  lemma BeforeBlock(q: Range, o: nat, e: nat)
    requires q.largeStart % BIG == 0 && q.largeEnd % BIG == 0 && Edge(q, e) && Edge(q, o) && o < e
    requires q.largeStart + BIG <= e <= q.largeEnd
    ensures o <= e - BIG && (e - BIG) % BIG == 0 && (e - BIG) % SMALL == 0
  {
    assert e % BIG == 0;
    DivMod(e, BIG);
    DivMod(q.largeStart, BIG);
    ModUnique(e - BIG, e / BIG - 1, BIG, 0);
    BigIsSmall(e - BIG);
    DivMod(o, BIG);
    Between(o / BIG, e / BIG - 1);
  }

  /** No multiple lies between two neighbouring ones. */
  lemma Between(a: nat, b: nat)
    ensures !(b * BIG < a * BIG < (b + 1) * BIG)
  {
  }

  lemma BeforePage(q: Range, e: nat)
    requires q.largeStart % BIG == 0 && q.largeEnd % BIG == 0 && Edge(q, e) && e >= SMALL
    requires !(q.largeStart + BIG <= e <= q.largeEnd)
    ensures (e - SMALL) % SMALL == 0 && !(q.largeStart <= e - SMALL < q.largeEnd)
  {
    DivMod(e, SMALL);
    ModUnique(e - SMALL, e / SMALL - 1, SMALL, 0);
    PageInside(e, q.largeEnd);
    if e % BIG == 0 {
      DivMod(e, BIG);
      DivMod(q.largeStart, BIG);
      Between(e / BIG, q.largeStart / BIG);
    }
  }

  lemma PageInside(e: nat, end: nat)
    requires e % SMALL == 0 && end % BIG == 0 && e >= SMALL
    ensures e - SMALL < end ==> e <= end
  {
    BigIsSmall(end);
    if end < e {
      PageApart(end, e);
    }
  }

  lemma {:induction false} AskedPrefix(q: Range, o: nat, e: nat)
    requires q.vaddr % SMALL == 0 && q.vaddr <= q.largeStart && q.largeStart % BIG == 0 && q.largeEnd % BIG == 0
    requires q.vaddr <= o <= e && Edge(q, o) && Edge(q, e)
    ensures Asked(q, o) <= Asked(q, e)
    ensures o < e ==> |Asked(q, o)| < |Asked(q, e)| && Asked(q, e)[|Asked(q, o)|] == RequestAt(q, o)
    decreases e
  {
    hide W, Edge, RequestAt;
    if o < e {
      EdgeBefore(q, o, e);
      AskedPrefix(q, o, PageBefore(q, e));
    }
  }

  lemma {:induction false} AskedAt(q: Range, e: nat, i: nat) returns (o: nat)
    requires q.vaddr % SMALL == 0 && q.vaddr <= q.largeStart && q.largeStart % BIG == 0 && q.largeEnd % BIG == 0
    requires q.vaddr <= e && Edge(q, e) && i < |Asked(q, e)|
    ensures q.vaddr <= o < e && Asked(q, e)[i] == RequestAt(q, o)
    ensures q.largeStart <= o < q.largeEnd ==> o % BIG == 0 && o + BIG <= q.largeEnd && o + BIG <= e
    decreases e
  {
    hide W, Edge, RequestAt;
    StartIsEdge(q);
    EdgeBefore(q, q.vaddr, e);
    var p := PageBefore(q, e);
    if i == |Asked(q, p)| {
      o := p;
    } else {
      o := AskedAt(q, p, i);
    }
  }

  lemma StartIsEdge(q: Range)
    requires q.vaddr % SMALL == 0 && q.vaddr <= q.largeStart
    ensures Edge(q, q.vaddr)
  {
  }

  /** A block of the range is mapped by one large page or by none. */
  lemma AskedUnmixed(q: Range, e: nat)
    requires RangeOk(q, e) && Edge(q, e)
    ensures Unmixed(Asked(q, e))
  {
    hide W, Edge, Asked, Common, Top;
    var rs := Asked(q, e);
    forall i, j | 0 <= i < j < |rs| && rs[i].large != rs[j].large ensures Common(rs[j].vaddr, rs[i].vaddr) < 3 {
      var a := AskedAt(q, e, i);
      var b := AskedAt(q, e, j);
      if rs[i].large {
        OtherBlock(q, e, a, b);
      } else {
        OtherBlock(q, e, b, a);
      }
      SameBlockCommon(W(b), W(a));
    }
  }

  lemma OtherBlock(q: Range, e: nat, large: nat, small: nat)
    requires RangeOk(q, e) && q.vaddr <= large && q.vaddr <= small < e
    requires q.largeStart <= large && large % BIG == 0 && large + BIG <= q.largeEnd && large + BIG <= e
    requires !(q.largeStart <= small < q.largeEnd)
    ensures !SameBlock(W(small), W(large)) && !SameBlock(W(large), W(small))
  {
    hide W, SameBlock, BlockOf, Top;
    SameBlockNumber(small, large);
    SameBlockNumber(large, small);
    BlockRange(q.vaddr, large, small);
    LikeSelf(q.vaddr, small);
  }

  /** Two megabytes from address zero, mapped to the second physical page. */
  lemma MisplacedRange(prot: bv64, flags: bv64)
    ensures Misplaced(Requests(0, 0x1000, 0x20_0000, prot, flags), 0x20_0000)
  {
  }

  lemma RequestOk(vaddr: nat, paddr: nat, size: nat, prot: bv64, flags: bv64, end: nat)
    requires vaddr % SMALL == 0 && paddr % SMALL == 0 && vaddr + BIG - 1 < U64
    requires vaddr <= end <= PageEnd(vaddr + size) < U64 && PageEnd(vaddr + size) <= Top(vaddr)
    requires paddr + (PageEnd(vaddr + size) - vaddr) <= P52
    ensures RangeOk(Requests(vaddr, paddr, size, prot, flags), end)
  {
    hide WrappedAlignUp, AlignUp, AlignDown, PageEnd, Top;
    Boundaries(vaddr, size, paddr);
  }

  /** The three runs, for a range that starts at a page. */
  method MapRuns(mmu: Mmu, vaddr: nat, paddr: nat, size: nat, prot: bv64, flags: bv64)
      returns (err: int, ghost done: nat)
    requires mmu.Valid() && paddr % SMALL == 0 && vaddr % SMALL == 0
    requires vaddr + BIG - 1 < U64 && PageEnd(vaddr + size) < U64 && PageEnd(vaddr + size) <= Top(vaddr)
    requires paddr + (PageEnd(vaddr + size) - vaddr) <= P52
    modifies mmu
    ensures vaddr <= done <= PageEnd(vaddr + size) && (err == 0 <==> done == PageEnd(vaddr + size))
    ensures mmu.Valid()
    ensures var q := Requests(vaddr, paddr, size, prot, flags);
            && RangeMapped(old(mmu.mem), mmu.mem, mmu.root, q, done)
            && AllGranted(old(mmu.mem), mmu.root, Asked(q, done), |old(mmu.free)|)
            && (err != 0 ==> Refused(old(mmu.mem), mmu.root, |old(mmu.free)|, q, done, err) && Edge(q, done))
  {
    hide RangeMapped, Top, Requested, Sound, WrappedAlignUp, AlignUp, AlignDown, PageEnd, AllGranted, Refused, Asked,
         Led, SameOpen;
    ghost var (mem, free) := (mmu.mem, |mmu.free|);
    ghost var q := Requests(vaddr, paddr, size, prot, flags);
    NothingMapped(mem, mmu.root, q);
    NothingYet(mem, mmu.root, q, mmu.State());
    var (start, end) := (vaddr, vaddr + size);
    var largeStart := WrappedAlignUp(vaddr, BIG);
    var largeEnd := AlignDown(end, BIG);
    Boundaries(vaddr, size, paddr);
    var phys := paddr;
    if largeEnd < largeStart {
      err, phys, done := MapSmallRun(mmu, start, end, phys, prot, flags, mem, free, q);
      return;
    }
    if start != largeStart {
      err, phys, done := MapSmallRun(mmu, start, largeStart, phys, prot, flags, mem, free, q);
      if err != 0 {
        return;
      }
    }
    if largeStart != largeEnd {
      err, phys, done := MapLargeRun(mmu, largeStart, largeEnd, phys, prot, flags, mem, free, q);
      if err != 0 {
        return;
      }
    }
    if largeEnd != end {
      err, phys, done := MapSmallRun(mmu, largeEnd, end, phys, prot, flags, mem, free, q);
      return;
    }
    return 0, end;
  }

  /** The range ends between two pages. */
  lemma RequestEdge(vaddr: nat, paddr: nat, size: nat, prot: bv64, flags: bv64)
    requires vaddr % SMALL == 0 && paddr % SMALL == 0 && vaddr + BIG - 1 < U64
    ensures Edge(Requests(vaddr, paddr, size, prot, flags), PageEnd(vaddr + size))
    ensures Requests(vaddr, paddr, size, prot, flags).vaddr == vaddr
  {
    hide WrappedAlignUp, AlignUp, AlignDown;
    Boundaries(vaddr, size, paddr);
    PageEndAligned(vaddr + size);
  }

  lemma PageEndAligned(x: nat)
    ensures PageEnd(x) % SMALL == 0
  {
    hide AlignDown;
    RoundsDown(x + SMALL - 1, SMALL);
  }

  lemma NothingYet(mem: Memory, root: Page, q: Range, s: Tables)
    requires s.mem == mem
    ensures SameOpen(mem, mem, root, q)
    ensures Led(mem, root, Asked(q, q.vaddr), |s.free|, s) && AllGranted(mem, root, Asked(q, q.vaddr), |s.free|)
  {
    hide Opened, Requested, Led;
    NothingAsked(mem, root, s);
  }

  lemma Boundaries(vaddr: nat, size: nat, paddr: nat)
    requires vaddr % SMALL == 0 && paddr % SMALL == 0 && vaddr + BIG - 1 < U64
    ensures var (start, end) := (WrappedAlignUp(vaddr, BIG), AlignDown(vaddr + size, BIG));
            && vaddr <= start && start % BIG == 0 && start % SMALL == 0 && PageEnd(start) == start
            && end <= vaddr + size && end % BIG == 0 && end % SMALL == 0 && PageEnd(end) == end
            && vaddr + size <= PageEnd(vaddr + size) < vaddr + size + SMALL
            && (paddr + (start - vaddr)) % SMALL == 0
            && (start <= end ==> (paddr + (end - vaddr)) % SMALL == 0)
  {
    hide WrappedAlignUp, AlignUp, AlignDown, PageEnd;
    var (start, end) := (WrappedAlignUp(vaddr, BIG), AlignDown(vaddr + size, BIG));
    AlignUpRight(vaddr);
    AlignDownRight(vaddr + size);
    BigIsSmall(start);
    BigIsSmall(end);
    PageEndOf(start);
    PageEndOf(end);
    PageEndOf(vaddr + size);
    Match(paddr, vaddr, start, SMALL);
    if start <= end {
      Match(paddr, vaddr, end, SMALL);
    }
  }

  lemma AlignDownRight(x: nat)
    ensures AlignDown(x, BIG) <= x && AlignDown(x, BIG) % BIG == 0
  {
    RoundsDown(x, BIG);
  }

  lemma PageEndOf(x: nat)
    ensures x <= PageEnd(x) < x + SMALL && (x % SMALL == 0 ==> PageEnd(x) == x)
  {
    hide AlignDown;
    RoundsDown(x + SMALL - 1, SMALL);
    if x % SMALL == 0 {
      SameMultiple(AlignDown(x + SMALL - 1, SMALL), x, x + SMALL - 1 - AlignDown(x + SMALL - 1, SMALL), SMALL);
    }
  }

  /** Addresses that agree modulo a page size stay matched at its multiples. */
  lemma Match(paddr: nat, vaddr: nat, x: nat, b: nat)
    requires b > 0 && paddr % b == vaddr % b && x % b == 0 && vaddr <= x
    ensures (paddr + (x - vaddr)) % b == 0
  {
    var k := paddr / b - vaddr / b + x / b;
    assert paddr + (x - vaddr) == k * b;
    Sign(k, b);
    ModUnique(paddr + (x - vaddr), k, b, 0);
  }

  lemma Mismatch(paddr: nat, vaddr: nat, x: nat)
    requires paddr % SMALL == 0 && vaddr % SMALL == 0 && x % BIG == 0 && vaddr <= x && paddr % BIG != vaddr % BIG
    ensures (paddr + (x - vaddr)) % SMALL == 0 && (paddr + (x - vaddr)) % BIG != 0
  {
    BigIsSmall(x);
    Match(paddr, vaddr, x, SMALL);
    if (paddr + (x - vaddr)) % BIG == 0 {
      MatchBack(paddr, vaddr, x, BIG);
    }
  }

  lemma MatchBack(paddr: nat, vaddr: nat, x: nat, b: nat)
    requires b > 0 && x % b == 0 && vaddr <= x && (paddr + (x - vaddr)) % b == 0
    ensures paddr % b == vaddr % b
  {
    var y := paddr + (x - vaddr);
    DivMod(x, b);
    DivMod(y, b);
    DivMod(vaddr, b);
    Steps(paddr, vaddr / b, vaddr % b, y / b, x / b, b);
  }

  lemma Steps(p: nat, q: nat, r: nat, y: nat, x: nat, b: nat)
    requires b > 0 && r < b && p == q * b + r + (y * b - x * b)
    ensures p % b == r
  {
    var k := q + y - x;
    assert p == k * b + r;
    Multiple(-k, b);
    assert -k * b == -(k * b);
    Sign(k, b);
    ModUnique(p, k, b, r);
  }

  lemma Sign(k: int, b: nat)
    requires k * b >= 0 && b > 0
    ensures k >= 0
  {
  }
}
