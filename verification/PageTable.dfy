/** Mapping pages: the tables on the way to a page are made as they are needed. */
module PageTable {
  import opened Bytes
  import opened Paging

  const ENOMEM := 12
  const EINVAL := 22

  // ---------------------------------------------------------------- protection

  /* Protection: 0x2 write, 0x4 execute. Flags: 0x1 user page, 0x2 no cache. */

  function HwProt(prot: bv64): bv64 {
    0x1 | (if prot & 0x2 != 0 then 0x2 else 0) | (if prot & 0x4 == 0 then 0x8000_0000_0000_0000 else 0)
  }

  function HwFlags(flags: bv64): bv64 {
    (if flags & 0x1 != 0 then 0x4 else 0) | (if flags & 0x2 != 0 then 0x10 else 0)
  }

  /** What the caller asks for. */
  function Requested(prot: bv64, flags: bv64): Access {
    Access(prot & 0x2 != 0, flags & 0x1 != 0, flags & 0x2 != 0, prot & 0x4 != 0)
  }

  predicate TableFlags(f: bv64) {
    f & 0xffff_ffff_ffff_ffeb == 0
  }

  lemma HwFlagsAreTableFlags(flags: bv64)
    ensures TableFlags(HwFlags(flags))
  {
  }

  /** The entry for a table takes only access from user code away. */
  lemma TableEntry(q: Page, f: bv64)
    requires IsFrame(q.addr) && TableFlags(f)
    ensures RefersTo(MakeEntry(q.addr, 0x1 | 0x2 | f), q)
    ensures IsUser(MakeEntry(q.addr, 0x1 | 0x2 | f)) == IsUser(f)
  {
    hide EntryPaddr, HwAddress, IsPresent, IsLarge, MakeEntry, IsFrame, IsUser, Permits;
    TableBits(f);
    TableAccess(q.addr, f);
    EntryRoundTrip(q.addr, 0x1 | 0x2 | f);
    ZeroWord();
  }

  lemma TableBits(f: bv64)
    requires TableFlags(f)
    ensures IsFlags(0x1 | 0x2 | f) && IsPresent(0x1 | 0x2 | f) && !IsLarge(0x1 | 0x2 | f)
  {
  }

  lemma TableAccess(p: bv64, f: bv64)
    requires IsFrame(p) && TableFlags(f)
    ensures Permits(MakeEntry(p, 0x1 | 0x2 | f)) && IsUser(MakeEntry(p, 0x1 | 0x2 | f)) == IsUser(f)
  {
    AccessFree(p);
    AccessBits(p, 0x1 | 0x2 | f);
    assert f & 0x8000_0000_0000_0000 == 0 && (0x1 | 0x2 | f) & 0x4 == f & 0x4;
  }

  lemma UserFlag(prot: bv64, flags: bv64)
    ensures IsUser(HwFlags(flags)) == Requested(prot, flags).user
  {
  }

  /** The word for a 4 KiB page, and the one for a 2 MiB block. */
  function LeafWord(paddr: bv64, prot: bv64, flags: bv64): bv64 {
    MakeEntry(paddr, HwProt(prot) | HwFlags(flags))
  }

  function LargeWord(paddr: bv64, prot: bv64, flags: bv64): bv64 {
    MakeEntry(paddr, HwProt(prot) | HwFlags(flags) | 0x80)
  }

  /** The address `v` has in a frame. */
  function InFrame(paddr: bv64, v: bv64): bv64 {
    paddr | (v & 0xfff)
  }

  /** The access of a leaf for `paddr`: what was asked for, and what the bits of an address that is no frame
      add to it. */
  function Mixed(paddr: bv64, a: Access): Access {
    Access(a.writable || paddr & 0x2 != 0, a.user || paddr & 0x4 != 0, a.uncached || paddr & 0x10 != 0,
           a.executable && paddr & 0x8000_0000_0000_0000 == 0)
  }

  /** What the processor makes of a 4 KiB leaf for `paddr`. */
  function PageTranslation(paddr: bv64, access: Access, v: bv64): Option<Translation> {
    Some(Translation(PageTarget(paddr, v), Mixed(paddr, access)))
  }

  function PageTarget(paddr: bv64, v: bv64): bv64 {
    (paddr & 0x000f_ffff_ffff_f000) | (v & 0xfff)
  }

  /** The processor reads the leaf the kernel writes that way. */
  lemma PageEntry(paddr: bv64, prot: bv64, flags: bv64, v: bv64)
    ensures var e := MakeEntry(paddr, HwProt(prot) | HwFlags(flags));
            IsPresent(e) && PageLeaf(e, v) == PageTranslation(paddr, Requested(prot, flags), v)
  {
    hide IsPresent, IsFlags, MakeEntry, AccessOf, Mixed, HwAddress, HwProt, HwFlags, Requested;
    LeafBits(prot, flags);
    Packed(paddr, HwProt(prot) | HwFlags(flags));
    PackedAccess(paddr, HwProt(prot) | HwFlags(flags));
  }

  lemma LeafBits(prot: bv64, flags: bv64)
    ensures var f := HwProt(prot) | HwFlags(flags);
            IsFlags(f) && IsPresent(f) && AccessOf(f) == Requested(prot, flags)
  {
  }

  lemma Packed(p: bv64, f: bv64)
    requires IsFlags(f)
    ensures HwAddress(MakeEntry(p, f)) == p & 0x000f_ffff_ffff_f000
    ensures IsPresent(f) ==> IsPresent(MakeEntry(p, f))
    ensures IsLarge(f) ==> IsLarge(MakeEntry(p, f))
  {
    hide IsFlags, HwAddress, MakeEntry, IsPresent, IsLarge;
    PackedAddress(p, f);
    if IsPresent(f) {
      PackedPresent(p, f);
    }
    if IsLarge(f) {
      PackedLarge(p, f);
    }
  }

  lemma PackedAddress(p: bv64, f: bv64)
    requires IsFlags(f)
    ensures HwAddress(MakeEntry(p, f)) == p & 0x000f_ffff_ffff_f000
  {
    assert f & 0x000f_ffff_ffff_f000 == 0;
  }

  lemma PackedPresent(p: bv64, f: bv64)
    requires IsPresent(f)
    ensures IsPresent(MakeEntry(p, f))
  {
  }

  lemma PackedLarge(p: bv64, f: bv64)
    requires IsLarge(f)
    ensures IsLarge(MakeEntry(p, f))
  {
  }

  lemma PackedAccess(p: bv64, f: bv64)
    ensures AccessOf(MakeEntry(p, f)) == Mixed(p, AccessOf(f))
  {
    AccessBits(p, f);
  }

  lemma AccessBits(p: bv64, f: bv64)
    ensures (p | f) & 0x2 != 0 <==> p & 0x2 != 0 || f & 0x2 != 0
    ensures (p | f) & 0x4 != 0 <==> p & 0x4 != 0 || f & 0x4 != 0
    ensures (p | f) & 0x10 != 0 <==> p & 0x10 != 0 || f & 0x10 != 0
    ensures (p | f) & 0x8000_0000_0000_0000 == 0 <==>
            p & 0x8000_0000_0000_0000 == 0 && f & 0x8000_0000_0000_0000 == 0
  {
  }

  /** A frame adds nothing to the access. */
  lemma FrameAccess(paddr: bv64, access: Access)
    requires IsFrame(paddr)
    ensures Mixed(paddr, access) == access
  {
    AccessFree(paddr);
  }

  lemma AccessFree(p: bv64)
    requires p & 0xfff0_0000_0000_0fff == 0
    ensures p & 0x2 == 0 && p & 0x4 == 0 && p & 0x10 == 0 && p & 0x8000_0000_0000_0000 == 0
  {
  }

  /** A 4 KiB mapping is right exactly if its physical address is that of a frame, and its tables are open if it is for
      user code. */
  lemma PageRight(paddr: bv64, access: Access, open: bool)
    ensures (forall v: bv64 :: Grant(open, PageTranslation(paddr, access, v))
                               == Some(Translation(InFrame(paddr, v), access)))
            <==> IsFrame(paddr) && (access.user ==> open)
  {
    hide PageTranslation, InFrame, Grant, IsFrame;
    if IsFrame(paddr) {
      forall v
        ensures Grant(open, PageTranslation(paddr, access, v))
                == Some(Translation(InFrame(paddr, v), access.(user := access.user && open)))
      {
        PageGranted(paddr, access, open, v);
      }
      assert access.user && !open ==>
          Grant(open, PageTranslation(paddr, access, 0)) != Some(Translation(InFrame(paddr, 0), access));
    } else {
      PageMissed(paddr, access, open);
    }
  }

  lemma PageGranted(paddr: bv64, access: Access, open: bool, v: bv64)
    requires IsFrame(paddr)
    ensures Grant(open, PageTranslation(paddr, access, v))
            == Some(Translation(InFrame(paddr, v), access.(user := access.user && open)))
  {
    hide Mixed;
    FrameAccess(paddr, access);
    FrameAddress(paddr);
  }

  lemma PageMissed(paddr: bv64, access: Access, open: bool)
    requires !IsFrame(paddr)
    ensures Grant(open, PageTranslation(paddr, access, 0)) != Some(Translation(InFrame(paddr, 0), access))
  {
    hide Mixed;
    NoFrameAddress(paddr);
  }

  lemma FrameAddress(p: bv64)
    requires p & 0xfff0_0000_0000_0fff == 0
    ensures p & 0x000f_ffff_ffff_f000 == p
  {
  }

  lemma NoFrameAddress(p: bv64)
    requires p & 0xfff0_0000_0000_0fff != 0
    ensures (p & 0x000f_ffff_ffff_f000) | (0 & 0xfff) != p | (0 & 0xfff)
  {
  }

  /** At address 2 a page that should be read only can be written. */
  lemma PageWrong(v: bv64)
    ensures PageTranslation(0x2, Access(false, false, false, false), v)
            == Some(Translation(v & 0xfff, Access(true, false, false, false)))
  {
  }

  /** What the processor makes of a 2 MiB leaf for `paddr`: bits 13 to 20 fault, bit 12 is ignored. */
  function BlockTranslation(paddr: bv64, access: Access, v: bv64): Option<Translation> {
    if BlockFaults(paddr) then None else Some(Translation(BlockTarget(paddr, v), Mixed(paddr, access)))
  }

  predicate BlockFaults(paddr: bv64) {
    paddr & 0x1f_e000 != 0
  }

  function BlockTarget(paddr: bv64, v: bv64): bv64 {
    (paddr & 0x000f_ffff_ffe0_0000) | (v & 0x1f_ffff)
  }

  /** A 2 MiB mapping is right exactly if its physical address is that of a frame and a multiple of 2 MiB, and its
      tables are open if it is for user code. */
  lemma BlockRight(paddr: bv64, access: Access, open: bool)
    ensures (forall v: bv64 :: Grant(open, BlockTranslation(paddr, access, v))
                               == Some(Translation(paddr | (v & 0x1f_ffff), access)))
            <==> IsFrame(paddr) && paddr & 0x1f_ffff == 0 && (access.user ==> open)
  {
    hide BlockTranslation, Grant, IsFrame;
    if IsFrame(paddr) && paddr & 0x1f_ffff == 0 {
      forall v: bv64
        ensures Grant(open, BlockTranslation(paddr, access, v))
                == Some(Translation(paddr | (v & 0x1f_ffff), access.(user := access.user && open)))
      {
        BlockGranted(paddr, access, open, v);
      }
      assert access.user && !open ==>
          Grant(open, BlockTranslation(paddr, access, 0)) != Some(Translation(paddr | (0 & 0x1f_ffff), access));
    } else {
      BlockMisses(paddr, access, open);
    }
  }

  lemma BlockGranted(paddr: bv64, access: Access, open: bool, v: bv64)
    requires IsFrame(paddr) && paddr & 0x1f_ffff == 0
    ensures Grant(open, BlockTranslation(paddr, access, v))
            == Some(Translation(paddr | (v & 0x1f_ffff), access.(user := access.user && open)))
  {
    hide Mixed;
    AlignedBits(paddr);
    FrameAccess(paddr, access);
  }

  lemma BlockMisses(paddr: bv64, access: Access, open: bool)
    requires !(IsFrame(paddr) && paddr & 0x1f_ffff == 0)
    ensures Grant(open, BlockTranslation(paddr, access, 0)) != Some(Translation(paddr | (0 & 0x1f_ffff), access))
  {
    hide Mixed;
    UnalignedBits(paddr);
  }

  /** At 0x1000 a block translates to the block before it, at 0x2000 it faults. */
  lemma BlockWrong(access: Access, v: bv64)
    ensures BlockTranslation(0x1000, access, v) == Some(Translation(v & 0x1f_ffff, access))
    ensures BlockTranslation(0x2000, access, v) == None
  {
  }

  lemma AlignedBits(p: bv64)
    requires p & 0xfff0_0000_0000_0fff == 0 && p & 0x1f_ffff == 0
    ensures p & 0x1f_e000 == 0 && p & 0x000f_ffff_ffe0_0000 == p
  {
  }

  lemma UnalignedBits(p: bv64)
    requires p & 0xfff0_0000_0000_0fff != 0 || p & 0x1f_ffff != 0
    ensures (p & 0x000f_ffff_ffe0_0000) | (0 & 0x1f_ffff) != p | (0 & 0x1f_ffff)
  {
  }

  lemma BlockEntry(paddr: bv64, prot: bv64, flags: bv64, v: bv64)
    ensures var e := MakeEntry(paddr, HwProt(prot) | HwFlags(flags) | 0x80);
            && IsPresent(e) && IsLarge(e)
            && BlockLeaf(e, v) == BlockTranslation(paddr, Requested(prot, flags), v)
  {
    hide IsPresent, IsLarge, IsFlags, MakeEntry, AccessOf, Mixed, HwProt, HwFlags, Requested;
    LargeBits(prot, flags);
    Packed(paddr, HwProt(prot) | HwFlags(flags) | 0x80);
    PackedAccess(paddr, HwProt(prot) | HwFlags(flags) | 0x80);
    BlockAddress(paddr, HwProt(prot) | HwFlags(flags) | 0x80);
  }

  lemma LargeBits(prot: bv64, flags: bv64)
    ensures var f := HwProt(prot) | HwFlags(flags) | 0x80;
            IsFlags(f) && IsPresent(f) && IsLarge(f) && AccessOf(f) == Requested(prot, flags)
  {
  }

  lemma BlockAddress(p: bv64, f: bv64)
    requires IsFlags(f)
    ensures MakeEntry(p, f) & 0x1f_e000 == p & 0x1f_e000
    ensures MakeEntry(p, f) & 0x000f_ffff_ffe0_0000 == p & 0x000f_ffff_ffe0_0000
  {
  }

  // ---------------------------------------------------------------- state

  /** The memory, the pages the allocator will hand out, and which pages are tables. */
  datatype Tables = Tables(mem: Memory, free: seq<Page>, shape: Shape)

  ghost predicate Fresh(free: seq<Page>, sh: Shape) {
    && (forall k | 0 <= k < |free| :: IsFrame(free[k].addr) && free[k] !in sh.level)
    && (forall j, k | 0 <= j < k < |free| :: free[j] != free[k])
  }

  ghost predicate Sound(s: Tables, root: Page) {
    Tree(s.mem, root, s.shape) && Fresh(s.free, s.shape)
  }

  /** The walk of `v` comes by the table `p` at this level. */
  ghost predicate Stands(s: Tables, root: Page, p: Page, level: int, v: bv64)
    requires Sound(s, root)
  {
    p in s.shape.level && s.shape.level[p] == level && On(s.shape, root, p, v)
  }

  ghost predicate SameTranslations(mem: Memory, mem': Memory, root: Page) {
    forall v :: Translate(mem', root, v) == Translate(mem, root, v)
  }

  /** Only the page of `vaddr` translates differently: now by a leaf for `paddr`, to user code only if all tables on
      its way are open. */
  ghost predicate MapsPage(mem: Memory, mem': Memory, root: Page, vaddr: bv64, paddr: bv64, access: Access) {
    forall v :: Translate(mem', root, v) ==
      if SamePage(v, vaddr) then Grant(Opened(mem', root, v), PageTranslation(paddr, access, v))
      else Translate(mem, root, v)
  }

  /** Only the 2 MiB block of `vaddr` translates differently. */
  ghost predicate MapsBlock(mem: Memory, mem': Memory, root: Page, vaddr: bv64, paddr: bv64, access: Access) {
    forall v :: Translate(mem', root, v) ==
      if SameBlock(v, vaddr) then Grant(Opened(mem', root, v), BlockTranslation(paddr, access, v))
      else Translate(mem, root, v)
  }

  /** All tables on the way of `v` are open to user code. */
  predicate Opened(mem: Memory, root: Page, v: bv64) {
    AllOpen(WayOf(mem, root, v).users)
  }

  function Next(e: bv64): Page {
    Page(EntryPaddr(e))
  }

  // What a request does to the ways.

  /** How many tables are missing on a way down to level `stop`. */
  function Missing(w: Way, stop: nat): nat {
    if w.large || |w.users| >= stop then 0 else stop - |w.users|
  }

  /** How many tables are made of the free pages. */
  function Makes(w: Way, free: nat, stop: nat): (n: nat)
    ensures n <= free
  {
    if free < Missing(w, stop) then free else Missing(w, stop)
  }

  function Stop(large: bool): nat {
    if large then 2 else 3
  }

  /** The answer to a request: out of memory if more tables are missing than pages are free, refused if the block is
      in use for pages of the other size. */
  function Answer(w: Way, free: nat, large: bool): int {
    if free < Missing(w, Stop(large)) then -ENOMEM
    else if large then if |w.users| == 3 then -EINVAL else 0
    else if w.large then -EINVAL else 0
  }

  /** The answer by number. A small page needs three tables below the root and a large one two; a large page in the
      way ends it behind the second. */
  lemma Answers(w: Way, free: nat, large: bool)
    requires |w.users| <= 3 && (w.large ==> |w.users| == 2)
    ensures Answer(w, free, large) in {0, -12, -22}
    ensures Answer(w, free, large) == -12 <==> !w.large && |w.users| + free < if large then 2 else 3
    ensures Answer(w, free, large) == -22 <==> if large then |w.users| == 3 else w.large
  {
  }

  /** The way `w` after a request for an address whose way was `way`. */
  function After(w: Way, way: Way, common: nat, free: nat, large: bool, u: bool): Way {
    var x := Extended(w, way, common, Makes(way, free, Stop(large)), u);
    if large && common == 3 && Answer(way, free, large) == 0 then Way(x.users, true) else x
  }

  /** `n` tables were made where the way of `v` ended. */
  ghost predicate Ways(mem: Memory, mem': Memory, root: Page, v: bv64, n: nat, u: bool) {
    forall x :: WayOf(mem', root, x) == Extended(WayOf(mem, root, x), WayOf(mem, root, v), Common(x, v), n, u)
  }

  ghost predicate Changes(mem: Memory, mem': Memory, root: Page, v: bv64, free: nat, large: bool, u: bool) {
    forall x :: WayOf(mem', root, x) ==
      After(WayOf(mem, root, x), WayOf(mem, root, v), Common(x, v), free, large, u)
  }

  /** A request that makes no large page only makes tables. */
  lemma WaysChange(mem: Memory, mem': Memory, root: Page, v: bv64, free: nat, large: bool, u: bool)
    requires Ways(mem, mem', root, v, Makes(WayOf(mem, root, v), free, Stop(large)), u)
    requires large ==> Answer(WayOf(mem, root, v), free, true) != 0
    ensures Changes(mem, mem', root, v, free, large, u)
  {
    hide WayOf, Common, Extended;
  }

  lemma NoWays(mem: Memory, root: Page, v: bv64, u: bool)
    ensures Ways(mem, mem, root, v, 0, u)
  {
    hide WayOf, Common;
  }

  /** One more table behind those made. */
  lemma WaysNext(mem: Memory, m1: Memory, m2: Memory, root: Page, v: bv64, n: nat, u: bool)
    requires Ways(mem, m1, root, v, n, u) && |WayOf(mem, root, v).users| + n < 3
    requires n > 0 ==> !WayOf(mem, root, v).large
    requires Ways(m1, m2, root, v, 1, u)
    ensures Ways(mem, m2, root, v, n + 1, u)
  {
    hide WayOf, Common, Extended;
    forall x
      ensures WayOf(m2, root, x) == Extended(WayOf(mem, root, x), WayOf(mem, root, v), Common(x, v), n + 1, u)
    {
      SharedWay(mem, root, v, x);
      CommonSelf(v);
      assert WayOf(m1, root, v) == Extended(WayOf(mem, root, v), WayOf(mem, root, v), Common(v, v), n, u);
      assert WayOf(m1, root, x) == Extended(WayOf(mem, root, x), WayOf(mem, root, v), Common(x, v), n, u);
      ExtendedNext(WayOf(mem, root, x), WayOf(mem, root, v), Common(x, v), n, u);
    }
  }

  lemma CommonSelf(v: bv64)
    ensures Common(v, v) == 3
  {
    hide Index;
  }

  lemma ExtendedNext(w: Way, way: Way, common: nat, n: nat, u: bool)
    requires |way.users| + n < 3 && common <= 3 && (|way.users| < common ==> w == way)
    ensures Extended(Extended(w, way, common, n, u), Extended(way, way, 3, n, u), common, 1, u)
            == Extended(w, way, common, n + 1, u)
  {
    var d := |way.users|;
    Assoc(way.users, Repeat(u, n), [u]);
    assert way.users + [] == way.users && Repeat(u, 1) == [u];
  }

  /** None at all. */
  lemma WaysSame(mem: Memory, m1: Memory, m2: Memory, root: Page, v: bv64, n: nat, u: bool)
    requires Ways(mem, m1, root, v, n, u) && Ways(m1, m2, root, v, 0, u)
    ensures Ways(mem, m2, root, v, n, u)
  {
    hide WayOf, Common;
  }

  /** The way of the address itself. */
  lemma WaysSelf(mem: Memory, mem': Memory, root: Page, v: bv64, n: nat, u: bool)
    requires Ways(mem, mem', root, v, n, u) && |WayOf(mem, root, v).users| + n <= 3
    ensures n == 0 ==> WayOf(mem', root, v) == WayOf(mem, root, v)
    ensures n > 0 ==> WayOf(mem', root, v) == Way(WayOf(mem, root, v).users + Repeat(u, n), false)
  {
    hide WayOf, Common;
    CommonSelf(v);
    assert WayOf(mem', root, v) == Extended(WayOf(mem, root, v), WayOf(mem, root, v), Common(v, v), n, u);
  }

  /** The state after a table was made for an empty word. */
  ghost function Made(s: Tables, p: Page, i: bv64, e: bv64): Tables
    requires p in s.shape.level && s.free != []
  {
    Tables(Linked(s.mem, p, i, s.free[0], e), s.free[1..], Grown(s.shape, p, i, s.free[0]))
  }

  lemma MadeSound(s: Tables, root: Page, p: Page, i: bv64, e: bv64)
    requires Sound(s, root) && p in s.shape.level && s.shape.level[p] < 3 && i < 512 && Word(s.mem, p, i) == 0
    requires s.free != [] && RefersTo(e, s.free[0])
    ensures Sound(Made(s, p, i, e), root)
  {
    hide Tree, Word, Linked, RefersTo, Grown, IsFrame;
    var q := s.free[0];
    GrowTree(s.mem, root, s.shape, p, i, q, e);
    var s' := Made(s, p, i, e);
    forall k | 0 <= k < |s'.free|
      ensures IsFrame(s'.free[k].addr) && s'.free[k] !in s'.shape.level
    {
      assert s'.free[k] == s.free[k + 1];
      GrownAt(s.shape, p, i, q, s'.free[k]);
    }
  }

  lemma MadeTranslates(s: Tables, root: Page, p: Page, i: bv64, e: bv64)
    requires Sound(s, root) && p in s.shape.level && s.shape.level[p] < 3 && i < 512 && Word(s.mem, p, i) == 0
    requires s.free != [] && RefersTo(e, s.free[0])
    ensures SameTranslations(s.mem, Made(s, p, i, e).mem, root)
  {
    hide Tree, Word, Linked, RefersTo, Grown, IsFrame, Translate;
    forall v ensures Translate(Made(s, p, i, e).mem, root, v) == Translate(s.mem, root, v) {
      GrowWalk(s.mem, root, s.shape, p, i, s.free[0], e, v);
    }
  }

  /** Only tables were written, and new tables come from the allocator. */
  ghost predicate Contained(s: Tables, s': Tables) {
    && (forall p | p in s.shape.level :: p in s'.shape.level)
    && (forall p | p in s'.shape.level && p !in s.shape.level :: p in s.free)
    && (forall p | p in s'.free :: p in s.free)
    && (forall p, i | p !in s'.shape.level :: Word(s'.mem, p, i) == Word(s.mem, p, i))
  }

  lemma MadeContained(s: Tables, p: Page, i: bv64, e: bv64)
    requires p in s.shape.level && s.free != []
    ensures Contained(s, Made(s, p, i, e))
  {
    hide Word, Linked, Grown;
    var s' := Made(s, p, i, e);
    forall p' ensures p' in s'.shape.level <==> p' == s.free[0] || p' in s.shape.level {
      GrownAt(s.shape, p, i, s.free[0], p');
    }
    forall p', i' | p' !in s'.shape.level ensures Word(s'.mem, p', i') == Word(s.mem, p', i') {
      LinkedWord(s.mem, p, i, s.free[0], e, p', i');
    }
  }

  lemma ContainedTrans(s: Tables, s': Tables, s'': Tables)
    requires Contained(s, s') && Contained(s', s'')
    ensures Contained(s, s'')
  {
    hide Word;
  }

  /** From a table at `level` the walk of `v` went to a table at the next level, which was made, open to user code or
      not, if there was none. */
  ghost predicate Descends(s: Tables, s': Tables, root: Page, level: int, v: bv64, u: bool, q: Page)
    requires Sound(s, root) && Sound(s', root) && 0 <= level < 3
  {
    && Stands(s', root, q, level + 1, v)
    && SameTranslations(s.mem, s'.mem, root) && Contained(s, s')
    && var w := WayOf(s.mem, root, v);
       var n := if |w.users| > level then 0 else 1;
       && |w.users| >= level && (n == 1 ==> !w.large)
       && |s'.free| == |s.free| - n && Ways(s.mem, s'.mem, root, v, n, u)
  }

  lemma DescendsMade(s: Tables, root: Page, p: Page, level: int, v: bv64, e: bv64)
    requires Sound(s, root) && 0 <= level < 3 && Stands(s, root, p, level, v) && Word(s.mem, p, Index(v, level)) == 0
    requires s.free != [] && RefersTo(e, s.free[0])
    ensures Sound(Made(s, p, Index(v, level), e), root)
    ensures Descends(s, Made(s, p, Index(v, level), e), root, level, v, IsUser(e), s.free[0])
  {
    hide Tree, Word, Linked, RefersTo, IsFrame, Translate, Index, On, SameTranslations, Grown, Fresh, Contained, WayOf,
         Ways, IsUser;
    IndexInTable(v, level);
    MadeContained(s, p, Index(v, level), e);
    MadeSound(s, root, p, Index(v, level), e);
    MadeTranslates(s, root, p, Index(v, level), e);
    MadeStands(s, root, p, level, v, e);
    MadeWays(s, root, p, level, v, e);
  }

  /** Making a table adds it to the ways that come by the word. */
  lemma MadeWays(s: Tables, root: Page, p: Page, level: int, v: bv64, e: bv64)
    requires Sound(s, root) && 0 <= level < 3 && Stands(s, root, p, level, v) && Word(s.mem, p, Index(v, level)) == 0
    requires s.free != [] && RefersTo(e, s.free[0])
    ensures |WayOf(s.mem, root, v).users| == level && !WayOf(s.mem, root, v).large
    ensures Ways(s.mem, Made(s, p, Index(v, level), e).mem, root, v, 1, IsUser(e))
  {
    hide Tree, Word, Linked, RefersTo, IsFrame, Index, On, Grown, WayOf, IsUser, Common;
    var (mem, mem', q) := (s.mem, Made(s, p, Index(v, level), e).mem, s.free[0]);
    IndexInTable(v, level);
    FirstFree(s);
    WayLinked(mem, root, s.shape, p, Index(v, level), q, e, v);
    forall x
      ensures WayOf(mem', root, x) == Extended(WayOf(mem, root, x), WayOf(mem, root, v), Common(x, v), 1, IsUser(e))
    {
      WayLinked(mem, root, s.shape, p, Index(v, level), q, e, x);
      TreeShape(mem, root, s.shape, p);
      CommonOn(s.shape, root, p, v, x);
      SharedWay(mem, root, v, x);
    }
  }

  lemma FirstFree(s: Tables)
    requires s.free != [] && Fresh(s.free, s.shape)
    ensures IsFrame(s.free[0].addr) && s.free[0] !in s.shape.level
  {
  }

  lemma MadeStands(s: Tables, root: Page, p: Page, level: int, v: bv64, e: bv64)
    requires Sound(s, root) && 0 <= level < 3 && Stands(s, root, p, level, v) && s.free != []
    requires Sound(Made(s, p, Index(v, level), e), root)
    ensures Stands(Made(s, p, Index(v, level), e), root, s.free[0], level + 1, v)
  {
    hide Word, Linked, RefersTo, IsFrame, Index, Grown, WordOk;
    var (q, i) := (s.free[0], Index(v, level));
    GrownAt(s.shape, p, i, q, q);
    GrownAt(s.shape, p, i, q, p);
    OnGrown(s.shape, root, p, i, q, p, v);
    assert HasOwner(Grown(s.shape, p, i, q), q);
  }

  lemma DescendsSame(s: Tables, root: Page, p: Page, level: int, v: bv64, u: bool)
    requires Sound(s, root) && 0 <= level < 3 && Stands(s, root, p, level, v)
    requires var e := Word(s.mem, p, Index(v, level)); e != 0 && !(level == 2 && IsLarge(e))
    ensures Descends(s, s, root, level, v, u, Next(Word(s.mem, p, Index(v, level))))
  {
    hide IsFrame, Translate, Index, IsLarge, EntryPaddr, Word, Fresh, Tree, On, WayOf, Ways, Contained;
    NextOnWay(s.mem, root, s.shape, p, v);
    NoWays(s.mem, root, v, u);
    ContainedSame(s);
    WayAt(s, root, p, level, v);
  }

  lemma ContainedSame(s: Tables)
    ensures Contained(s, s)
  {
    hide Word;
  }

  /** How far the way of an address goes at a table it comes by. */
  lemma WayAt(s: Tables, root: Page, p: Page, level: int, v: bv64)
    requires Sound(s, root) && 0 <= level <= 3 && Stands(s, root, p, level, v)
    ensures var w := WayOf(s.mem, root, v);
            && |w.users| >= level
            && (level < 3 ==>
                  var e := Word(s.mem, p, Index(v, level));
                  && (e == 0 ==> |w.users| == level && !w.large)
                  && (e != 0 && level == 2 && IsLarge(e) ==> w.large)
                  && (e != 0 && !(level == 2 && IsLarge(e)) ==> |w.users| > level))
  {
    hide IsFrame, Index, IsLarge, EntryPaddr, Word, Fresh, Tree, On, UsersTo, WayOf, IsUser;
    TreeShape(s.mem, root, s.shape, p);
    WayOn(s.mem, root, s.shape, p, v);
    if level < 3 {
      WayHead(s.mem, p, level, v);
    }
  }

  lemma WayHead(mem: Memory, p: Page, level: int, v: bv64)
    requires 0 <= level < 3
    ensures var (e, r) := (Word(mem, p, Index(v, level)), WayFrom(mem, p, level, v));
            && (e == 0 ==> r == Way([], false)) && (e != 0 && level == 2 && IsLarge(e) ==> r == Way([], true))
            && (e != 0 && !(level == 2 && IsLarge(e)) ==> |r.users| > 0)
  {
    hide Index, IsLarge, EntryPaddr, Word, IsUser;
  }

  /** Of the tables down to level `k` those that were missing. */
  function Lacking(w: Way, k: nat): nat {
    if |w.users| >= k then 0 else k - |w.users|
  }

  /** The walk of `v` was brought to the table `q` at level `k`. */
  ghost predicate Reaches(s: Tables, s': Tables, root: Page, v: bv64, k: int, u: bool, q: Page)
    requires Sound(s, root) && Sound(s', root) && 0 <= k <= 3
  {
    && Stands(s', root, q, k, v)
    && SameTranslations(s.mem, s'.mem, root) && Contained(s, s')
    && var w := WayOf(s.mem, root, v);
       && |s'.free| == |s.free| - Lacking(w, k) && Ways(s.mem, s'.mem, root, v, Lacking(w, k), u)
       && (Lacking(w, k) > 0 ==> !w.large)
  }

  lemma ReachesRoot(s: Tables, root: Page, v: bv64, u: bool)
    requires Sound(s, root)
    ensures Reaches(s, s, root, v, 0, u, root)
  {
    hide Translate, Index, IsFrame, WordOk, Word, Fresh, WayOf, Ways, Contained;
    NoWays(s.mem, root, v, u);
    ContainedSame(s);
  }

  lemma ReachesNext(s: Tables, s1: Tables, s2: Tables, root: Page, v: bv64, k: int, u: bool, q: Page, p: Page)
    requires Sound(s, root) && Sound(s1, root) && Sound(s2, root) && 0 <= k < 3
    requires Reaches(s, s1, root, v, k, u, p) && Descends(s1, s2, root, k, v, u, q)
    ensures Reaches(s, s2, root, v, k + 1, u, q)
  {
    hide Translate, Sound, Contained, On, WayOf, Ways;
    ContainedTrans(s, s1, s2);
    var w := WayOf(s.mem, root, v);
    WaysSelf(s.mem, s1.mem, root, v, Lacking(w, k), u);
    if |WayOf(s1.mem, root, v).users| > k {
      WaysSame(s.mem, s1.mem, s2.mem, root, v, Lacking(w, k), u);
    } else {
      WaysNext(s.mem, s1.mem, s2.mem, root, v, Lacking(w, k), u);
    }
  }

  /** A walk that lacks a table when the allocator is empty could not have been completed. */
  lemma ReachesStuck(s: Tables, s': Tables, root: Page, v: bv64, k: int, u: bool, p: Page)
    requires Sound(s, root) && Sound(s', root) && 0 <= k < 3 && Reaches(s, s', root, v, k, u, p)
    requires Word(s'.mem, p, Index(v, k)) == 0 && s'.free == []
    ensures var w := WayOf(s.mem, root, v);
            !w.large && |w.users| <= k && |s.free| == k - |w.users| && Ways(s.mem, s'.mem, root, v, |s.free|, u)
  {
    hide Translate, Sound, Contained, On, Index, IsLarge, Word, EntryPaddr, SameTranslations, WayOf, Ways, Stands;
    WayAt(s', root, p, k, v);
    WaysSelf(s.mem, s'.mem, root, v, Lacking(WayOf(s.mem, root, v), k), u);
  }

  /** The state after a leaf was written. */
  ghost function Leafed(s: Tables, p: Page, i: bv64, e: bv64): Tables {
    Tables(Put(s.mem, p, i, e), s.free, s.shape)
  }

  lemma LeafedContained(s: Tables, s': Tables, p: Page, i: bv64, e: bv64)
    requires Contained(s, s') && p in s'.shape.level
    ensures Contained(s, Leafed(s', p, i, e))
  {
    hide Word, Put;
    forall p', i' | p' !in s'.shape.level ensures Word(Leafed(s', p, i, e).mem, p', i') == Word(s.mem, p', i') {
      PutWord(s'.mem, p, i, e, p', i');
    }
  }

  /** Writing the page's word maps exactly the page. */
  lemma PageWritten(s: Tables, s': Tables, root: Page, vaddr: bv64, paddr: bv64, prot: bv64, flags: bv64, u: bool,
                    pt: Page)
    requires Sound(s, root) && Sound(s', root) && Reaches(s, s', root, vaddr, 3, u, pt)
    ensures var s'' := Leafed(s', pt, PtIndex(vaddr), MakeEntry(paddr, HwProt(prot) | HwFlags(flags)));
            && Sound(s'', root) && Contained(s, s'')
            && MapsPage(s.mem, s''.mem, root, vaddr, paddr, Requested(prot, flags))
            && Changes(s.mem, s''.mem, root, vaddr, |s.free|, false, u)
            && |s''.free| == |s.free| - Makes(WayOf(s.mem, root, vaddr), |s.free|, 3)
            && Answer(WayOf(s.mem, root, vaddr), |s.free|, false) == 0
  {
    hide Tree, Word, Put, Index, HwProt, HwFlags, MakeEntry, PageLeaf, PageTranslation, IsPresent, On, Translate,
         Contained, SamePage, Requested, ShapeOk, WayOf, Ways, Changes, UsersTo, AllOpen, Grant, Common;
    var (i, e) := (PtIndex(vaddr), MakeEntry(paddr, HwProt(prot) | HwFlags(flags)));
    var s'' := Leafed(s', pt, i, e);
    LeafTree(s'.mem, root, s'.shape, pt, i, e);
    LeafedContained(s, s', pt, i, e);
    TreeShape(s'.mem, root, s'.shape, pt);
    forall v ensures Translate(s''.mem, root, v) ==
      if SamePage(v, vaddr) then Grant(Opened(s''.mem, root, v), PageTranslation(paddr, Requested(prot, flags), v))
      else Translate(s.mem, root, v)
    {
      PageEntry(paddr, prot, flags, v);
      PutWalk(s'.mem, root, s'.shape, pt, i, e, v);
      PageHit(s'.shape, root, pt, v, vaddr);
      WayPut(s'.mem, root, s'.shape, pt, i, e, v);
    }
    var w := WayOf(s.mem, root, vaddr);
    LeafWays(s.mem, s', root, vaddr, Lacking(w, 3), u, pt, i, e);
    WaysChange(s.mem, s''.mem, root, vaddr, |s.free|, false, u);
  }

  /** A leaf of a page table is on nobody's way. */
  lemma LeafWays(mem: Memory, s': Tables, root: Page, v: bv64, n: nat, u: bool, pt: Page, i: bv64, e: bv64)
    requires Sound(s', root) && Ways(mem, s'.mem, root, v, n, u) && pt in s'.shape.level && s'.shape.level[pt] == 3
    requires Tree(Put(s'.mem, pt, i, e), root, s'.shape)
    ensures Ways(mem, Put(s'.mem, pt, i, e), root, v, n, u)
  {
    hide Tree, Word, Put, On, WayOf, UsersTo, Common, Extended, Index, IsLarge;
    forall x
      ensures WayOf(Put(s'.mem, pt, i, e), root, x)
              == Extended(WayOf(mem, root, x), WayOf(mem, root, v), Common(x, v), n, u)
    {
      WayPut(s'.mem, root, s'.shape, pt, i, e, x);
    }
  }

  lemma PageHit(sh: Shape, root: Page, pt: Page, v: bv64, vaddr: bv64)
    requires ShapeOk(sh, root) && pt in sh.level && sh.level[pt] == 3 && On(sh, root, pt, vaddr)
    ensures On(sh, root, pt, v) && Index(v, 3) == PtIndex(vaddr) <==> SamePage(v, vaddr)
  {
    hide On, ShapeOk, SamePage, SameBlock, Pml4Index, PdptIndex, PdIndex, PtIndex;
    OnSame(sh, root, pt, v, vaddr);
    PageIndices(v, vaddr);
    BlockIndices(v, vaddr);
    assert Index(v, 0) == Pml4Index(v) && Index(v, 1) == PdptIndex(v) && Index(v, 2) == PdIndex(v);
  }

  lemma BlockHit(sh: Shape, root: Page, pd: Page, v: bv64, vaddr: bv64)
    requires ShapeOk(sh, root) && pd in sh.level && sh.level[pd] == 2 && On(sh, root, pd, vaddr)
    ensures On(sh, root, pd, v) && Index(v, 2) == PdIndex(vaddr) <==> SameBlock(v, vaddr)
  {
    hide On, ShapeOk, SameBlock, Pml4Index, PdptIndex, PdIndex;
    OnSame(sh, root, pd, v, vaddr);
    BlockIndices(v, vaddr);
    assert Index(v, 0) == Pml4Index(v) && Index(v, 1) == PdptIndex(v);
  }

  lemma BlockWritten(s: Tables, s': Tables, root: Page, vaddr: bv64, paddr: bv64, prot: bv64, flags: bv64, u: bool,
                     pd: Page)
    requires Sound(s, root) && Sound(s', root) && Reaches(s, s', root, vaddr, 2, u, pd)
    requires Word(s'.mem, pd, PdIndex(vaddr)) == 0 || IsLarge(Word(s'.mem, pd, PdIndex(vaddr)))
    ensures var s'' := Leafed(s', pd, PdIndex(vaddr), MakeEntry(paddr, HwProt(prot) | HwFlags(flags) | 0x80));
            && Sound(s'', root) && Contained(s, s'')
            && MapsBlock(s.mem, s''.mem, root, vaddr, paddr, Requested(prot, flags))
            && Changes(s.mem, s''.mem, root, vaddr, |s.free|, true, u)
            && |s''.free| == |s.free| - Makes(WayOf(s.mem, root, vaddr), |s.free|, 2)
            && Answer(WayOf(s.mem, root, vaddr), |s.free|, true) == 0
  {
    hide Tree, Word, Put, Index, HwProt, HwFlags, MakeEntry, BlockLeaf, BlockTranslation, IsPresent, IsLarge, On,
         Translate, Contained, SameBlock, Requested, ShapeOk, WayOf, Ways, Changes, UsersTo, AllOpen, Grant, Common,
         PdIndex;
    var (i, e) := (PdIndex(vaddr), MakeEntry(paddr, HwProt(prot) | HwFlags(flags) | 0x80));
    var s'' := Leafed(s', pd, i, e);
    BlockEntry(paddr, prot, flags, vaddr);
    LeafTree(s'.mem, root, s'.shape, pd, i, e);
    LeafedContained(s, s', pd, i, e);
    TreeShape(s'.mem, root, s'.shape, pd);
    forall v ensures Translate(s''.mem, root, v) ==
      if SameBlock(v, vaddr) then Grant(Opened(s''.mem, root, v), BlockTranslation(paddr, Requested(prot, flags), v))
      else Translate(s.mem, root, v)
    {
      BlockEntry(paddr, prot, flags, v);
      PutWalk(s'.mem, root, s'.shape, pd, i, e, v);
      BlockHit(s'.shape, root, pd, v, vaddr);
      WayPut(s'.mem, root, s'.shape, pd, i, e, v);
    }
    BlockAnswer(s, s', root, vaddr, u, pd);
    BlockWays(s, s', root, vaddr, u, pd, e);
  }

  /** At a directory whose entry is empty or large a large page is granted. */
  lemma BlockAnswer(s: Tables, s': Tables, root: Page, v: bv64, u: bool, pd: Page)
    requires Sound(s, root) && Sound(s', root) && Reaches(s, s', root, v, 2, u, pd)
    requires Word(s'.mem, pd, PdIndex(v)) == 0 || IsLarge(Word(s'.mem, pd, PdIndex(v)))
    ensures var w := WayOf(s.mem, root, v);
            && Answer(w, |s.free|, true) == 0 && Makes(w, |s.free|, 2) == Lacking(w, 2)
            && |s'.free| == |s.free| - Makes(w, |s.free|, 2)
  {
    hide Sound, Stands, SameTranslations, Contained, Word, IsLarge, EntryPaddr, WayOf, Ways, PdIndex;
    ReachesWay(s, s', root, v, 2, u, pd);
    assert Index(v, 2) == PdIndex(v);
  }

  lemma BlockWays(s: Tables, s': Tables, root: Page, v: bv64, u: bool, pd: Page, e: bv64)
    requires Sound(s, root) && Sound(s', root) && Reaches(s, s', root, v, 2, u, pd) && IsLarge(e)
    requires Word(s'.mem, pd, PdIndex(v)) == 0 || IsLarge(Word(s'.mem, pd, PdIndex(v)))
    requires Tree(Put(s'.mem, pd, PdIndex(v), e), root, s'.shape)
    ensures Changes(s.mem, Put(s'.mem, pd, PdIndex(v), e), root, v, |s.free|, true, u)
  {
    hide Tree, Word, Put, On, WayOf, UsersTo, Common, Extended, IsLarge, SameTranslations, Contained, ShapeOk, PdIndex,
         Answer, Makes, Index, Fresh;
    BlockAnswer(s, s', root, v, u, pd);
    TreeShape(s'.mem, root, s'.shape, pd);
    SecondIndex(v);
    var mem' := Put(s'.mem, pd, PdIndex(v), e);
    forall x
      ensures WayOf(mem', root, x)
              == After(WayOf(s.mem, root, x), WayOf(s.mem, root, v), Common(x, v), |s.free|, true, u)
    {
      WayPut(s'.mem, root, s'.shape, pd, PdIndex(v), e, x);
      CommonOn(s'.shape, root, pd, v, x);
    }
  }

  lemma SecondIndex(v: bv64)
    ensures Index(v, 2) == PdIndex(v)
  {
  }

  /** What is known of the way of an address once its walk was brought to a table. */
  lemma ReachesWay(s: Tables, s': Tables, root: Page, v: bv64, k: int, u: bool, q: Page)
    requires Sound(s, root) && Sound(s', root) && 0 <= k <= 2 && Reaches(s, s', root, v, k, u, q)
    ensures var (w, e) := (WayOf(s.mem, root, v), Word(s'.mem, q, Index(v, k)));
            && (e == 0 ==> !w.large && |w.users| <= k)
            && (k == 2 && e != 0 && IsLarge(e) ==> w.large)
            && (e != 0 && !(k == 2 && IsLarge(e)) ==> |w.users| > k)
  {
    hide Sound, Stands, SameTranslations, Contained, Word, IsLarge, EntryPaddr, WayOf, Ways, Index;
    WayAt(s', root, q, k, v);
    WaysSelf(s.mem, s'.mem, root, v, Lacking(WayOf(s.mem, root, v), k), u);
  }

  // ---------------------------------------------------------------- requests

  datatype Request = Request(large: bool, vaddr: bv64, paddr: bv64, prot: bv64, flags: bv64)

  predicate Covers(r: Request, v: bv64) {
    if r.large then SameBlock(v, r.vaddr) else SamePage(v, r.vaddr)
  }

  function Gives(r: Request, v: bv64): Option<Translation> {
    if r.large then BlockTranslation(r.paddr, Requested(r.prot, r.flags), v)
    else PageTranslation(r.paddr, Requested(r.prot, r.flags), v)
  }

  predicate IsUserRequest(r: Request) {
    Requested(r.prot, r.flags).user
  }

  /** A request was answered: with which code, how many free pages became tables and where, and what translates
      differently. */
  ghost predicate Answered(s: Tables, s': Tables, root: Page, r: Request, err: int) {
    && err == Answer(WayOf(s.mem, root, r.vaddr), |s.free|, r.large)
    && Changes(s.mem, s'.mem, root, r.vaddr, |s.free|, r.large, IsUserRequest(r))
    && |s'.free| == |s.free| - Makes(WayOf(s.mem, root, r.vaddr), |s.free|, Stop(r.large))
    && if err != 0 then SameTranslations(s.mem, s'.mem, root)
       else if r.large then MapsBlock(s.mem, s'.mem, root, r.vaddr, r.paddr, Requested(r.prot, r.flags))
       else MapsPage(s.mem, s'.mem, root, r.vaddr, r.paddr, Requested(r.prot, r.flags))
  }

  // ---------------------------------------------------------------- mapping

  class Mmu {
    const root: Page
    var mem: Memory
    var free: seq<Page>
    ghost var shape: Shape

    ghost function State(): Tables
      reads this
    {
      Tables(mem, free, shape)
    }

    ghost predicate Valid()
      reads this
    {
      Sound(State(), root)
    }

    /** An empty root table. */
    constructor (root: Page, mem: Memory, free: seq<Page>)
      requires IsFrame(root.addr) && (forall i :: Word(mem, root, i) == 0)
      requires Fresh(free, Shape(map[root := 0], map[]))
      ensures Valid() && this.root == root && this.mem == mem && this.free == free
      ensures forall v :: Translate(mem, root, v) == None
    {
      hide Walk, WordOk, Word;
      this.root, this.mem, this.free, this.shape := root, mem, free, Shape(map[root := 0], map[]);
      EmptyRoot(mem, root);
    }

    /** Reads the word `i` of table `p`, and makes a table for it if it is empty. */
    method Table(p: Page, i: bv64, hwFlags: bv64, ghost level: int, ghost v: bv64) returns (e: bv64)
      requires Valid() && 0 <= level < 3 && Stands(State(), root, p, level, v) && i == Index(v, level)
      requires TableFlags(hwFlags)
      modifies this
      ensures Valid()
      ensures e == 0 ==> State() == old(State()) && Word(mem, p, i) == 0 && free == []
      ensures e != 0 && level == 2 && IsLarge(e) ==> State() == old(State()) && e == Word(mem, p, i)
      ensures e != 0 && !(level == 2 && IsLarge(e)) ==>
                Descends(old(State()), State(), root, level, v, IsUser(hwFlags), Next(e))
    {
      hide Word, Cleared, Put, RefersTo, Descends, TableFlags, IsLarge, MakeEntry, EntryPaddr, On, Tree, Index,
           Grown, IsFrame, IsUser;
      e := Word(mem, p, i);
      if e == 0 {
        if free == [] {
          return 0;
        }
        var page := free[0];
        e := MakeEntry(page.addr, 0x1 | 0x2 | hwFlags);
        TableEntry(page, hwFlags);
        EntryIs(e, page);
        ZeroWord();
        DescendsMade(State(), root, p, level, v, e);
        free := free[1..];
        mem := Cleared(mem, page);
        mem := Put(mem, p, i, e);
        shape := Grown(shape, p, i, page);
        assert State() == old(Made(State(), p, i, e));
      } else if !(level == 2 && IsLarge(e)) {
        DescendsSame(State(), root, p, level, v, IsUser(hwFlags));
      }
    }

    /** Goes down to the page directory of `v`. */
    method Directory(v: bv64, hwFlags: bv64) returns (pd: Option<Page>)
      requires Valid() && TableFlags(hwFlags)
      modifies this
      ensures Valid()
      ensures pd.None? ==> Fails(old(State()), State(), root, v, IsUser(hwFlags), 2)
      ensures pd.Some? ==> Reaches(old(State()), State(), root, v, 2, IsUser(hwFlags), pd.value)
    {
      hide Reaches, Descends, Sound, TableFlags, Index, Fails, IsLarge, EntryPaddr, IsUser;
      ghost var u := IsUser(hwFlags);
      ReachesRoot(State(), root, v, u);
      ReachesStands(State(), State(), root, v, 0, u, root);
      var pml4e := Table(root, Pml4Index(v), hwFlags, 0, v);
      if pml4e == 0 {
        StuckFails(old(State()), State(), root, v, 0, u, root, 2);
        return None;
      }
      ReachesNext(old(State()), old(State()), State(), root, v, 0, u, Next(pml4e), root);
      ReachesStands(old(State()), State(), root, v, 1, u, Next(pml4e));
      ghost var s1 := State();
      var pdpte := Table(Next(pml4e), PdptIndex(v), hwFlags, 1, v);
      if pdpte == 0 {
        StuckFails(old(State()), State(), root, v, 1, u, Next(pml4e), 2);
        return None;
      }
      ReachesNext(old(State()), s1, State(), root, v, 1, u, Next(pdpte), Next(pml4e));
      return Some(Next(pdpte));
    }

    /** Maps a 4 KiB page. */
    method MapSmallPage(vaddr: bv64, paddr: bv64, prot: bv64, flags: bv64) returns (err: int)
      requires Valid()
      modifies this
      ensures Valid() && Contained(old(State()), State())
      ensures Answered(old(State()), State(), root, Request(false, vaddr, paddr, prot, flags), err)
    {
      hide Reaches, Descends, Sound, Fails, IsLarge, EntryPaddr, Index, HwFlags, HwProt, TableFlags, Contained, Put,
           LeafWord, Requested, Answered, IsUser, PdIndex, PtIndex, Word;
      var hwFlags := HwFlags(flags);
      HwFlagsAreTableFlags(flags);
      UserFlag(prot, flags);
      ghost var u := IsUser(hwFlags);
      var pd := Directory(vaddr, hwFlags);
      if pd.None? {
        FailsAnswered(old(State()), State(), root, Request(false, vaddr, paddr, prot, flags), u, 2);
        return -ENOMEM;
      }
      ReachesStands(old(State()), State(), root, vaddr, 2, u, pd.value);
      ghost var s1 := State();
      var pde := Table(pd.value, PdIndex(vaddr), hwFlags, 2, vaddr);
      if pde == 0 {
        StuckFails(old(State()), State(), root, vaddr, 2, u, pd.value, 3);
        FailsAnswered(old(State()), State(), root, Request(false, vaddr, paddr, prot, flags), u, 3);
        return -ENOMEM;
      }
      if IsLarge(pde) {
        LargeAnswered(old(State()), State(), root, Request(false, vaddr, paddr, prot, flags), u, pd.value);
        return -EINVAL;
      }
      ReachesNext(old(State()), s1, State(), root, vaddr, 2, u, Next(pde), pd.value);
      PageAnswered(old(State()), State(), root, vaddr, paddr, prot, flags, u, Next(pde));
      mem := Put(mem, Next(pde), PtIndex(vaddr), LeafWord(paddr, prot, flags));
      return 0;
    }

    /** Maps a 2 MiB block. */
    method MapLargePage(vaddr: bv64, paddr: bv64, prot: bv64, flags: bv64) returns (err: int)
      requires Valid()
      modifies this
      ensures Valid() && Contained(old(State()), State())
      ensures Answered(old(State()), State(), root, Request(true, vaddr, paddr, prot, flags), err)
    {
      hide Reaches, Sound, Fails, IsLarge, EntryPaddr, Index, HwFlags, HwProt, TableFlags, Contained, Put, LargeWord,
           Requested, Word, Answered, IsUser, PdIndex;
      var hwFlags := HwFlags(flags);
      HwFlagsAreTableFlags(flags);
      UserFlag(prot, flags);
      ghost var u := IsUser(hwFlags);
      var pd := Directory(vaddr, hwFlags);
      if pd.None? {
        FailsAnswered(old(State()), State(), root, Request(true, vaddr, paddr, prot, flags), u, 2);
        return -ENOMEM;
      }
      var pde := Word(mem, pd.value, PdIndex(vaddr));
      if pde != 0 && !IsLarge(pde) {
        TakenAnswered(old(State()), State(), root, Request(true, vaddr, paddr, prot, flags), u, pd.value);
        return -EINVAL;
      }
      BlockAnswered(old(State()), State(), root, vaddr, paddr, prot, flags, u, pd.value);
      mem := Put(mem, pd.value, PdIndex(vaddr), LargeWord(paddr, prot, flags));
      return 0;
    }
  }

  lemma EmptyRoot(mem: Memory, root: Page)
    requires IsFrame(root.addr) && forall i :: Word(mem, root, i) == 0
    ensures Tree(mem, root, Shape(map[root := 0], map[])) && forall v :: Translate(mem, root, v) == None
  {
    hide Word, Walk, IsFrame;
    forall v ensures Translate(mem, root, v) == None {
      WalkZero(mem, root, 0, v);
    }
  }

  /** The free pages were not enough for the tables down to level `stop`, and are all tables now. */
  ghost predicate Fails(s: Tables, s': Tables, root: Page, v: bv64, u: bool, stop: nat) {
    && SameTranslations(s.mem, s'.mem, root) && Contained(s, s')
    && s'.free == [] && |s.free| < Missing(WayOf(s.mem, root, v), stop)
    && Ways(s.mem, s'.mem, root, v, |s.free|, u)
  }

  lemma FailsAt(s: Tables, s': Tables, root: Page, v: bv64, u: bool, stop: nat, large: bool)
    requires Fails(s, s', root, v, u, stop) && stop <= Stop(large)
    ensures SameTranslations(s.mem, s'.mem, root) && Contained(s, s')
    ensures Answer(WayOf(s.mem, root, v), |s.free|, large) == -ENOMEM
    ensures Changes(s.mem, s'.mem, root, v, |s.free|, large, u)
    ensures |s'.free| == |s.free| - Makes(WayOf(s.mem, root, v), |s.free|, Stop(large))
  {
    hide SameTranslations, Contained, WayOf, Ways, Changes;
    WaysChange(s.mem, s'.mem, root, v, |s.free|, large, u);
  }

  lemma StuckFails(s: Tables, s': Tables, root: Page, v: bv64, k: int, u: bool, p: Page, stop: nat)
    requires Sound(s, root) && Sound(s', root) && 0 <= k < stop <= 3 && Reaches(s, s', root, v, k, u, p)
    requires Word(s'.mem, p, Index(v, k)) == 0 && s'.free == []
    ensures Fails(s, s', root, v, u, stop)
  {
    hide Sound, SameTranslations, Contained, Word, Index, WayOf, Ways;
    ReachesStuck(s, s', root, v, k, u, p);
  }

  lemma ReachesStands(s: Tables, s': Tables, root: Page, v: bv64, k: int, u: bool, q: Page)
    requires Sound(s, root) && Sound(s', root) && 0 <= k <= 3 && Reaches(s, s', root, v, k, u, q)
    ensures Stands(s', root, q, k, v)
    ensures Index(v, 0) == Pml4Index(v) && Index(v, 1) == PdptIndex(v) && Index(v, 2) == PdIndex(v)
  {
    hide Sound, Stands;
  }

  /** A large page is in the way of a small one. */
  lemma ReachesLarge(s: Tables, s': Tables, root: Page, v: bv64, u: bool, pd: Page)
    requires Sound(s, root) && Sound(s', root) && Reaches(s, s', root, v, 2, u, pd)
    requires Word(s'.mem, pd, PdIndex(v)) != 0 && IsLarge(Word(s'.mem, pd, PdIndex(v)))
    ensures Answer(WayOf(s.mem, root, v), |s.free|, false) == -EINVAL
    ensures SameTranslations(s.mem, s'.mem, root) && Contained(s, s')
    ensures Changes(s.mem, s'.mem, root, v, |s.free|, false, u)
    ensures |s'.free| == |s.free| - Makes(WayOf(s.mem, root, v), |s.free|, 3)
  {
    hide Sound, Stands, SameTranslations, Contained, Word, IsLarge, EntryPaddr, WayOf, Ways, Changes, Index;
    SecondIndex(v);
    ReachesWay(s, s', root, v, 2, u, pd);
    WaysChange(s.mem, s'.mem, root, v, |s.free|, false, u);
  }

  /** A page table is in the way of a large page. */
  lemma ReachesTaken(s: Tables, s': Tables, root: Page, v: bv64, u: bool, pd: Page)
    requires Sound(s, root) && Sound(s', root) && Reaches(s, s', root, v, 2, u, pd)
    requires Word(s'.mem, pd, PdIndex(v)) != 0 && !IsLarge(Word(s'.mem, pd, PdIndex(v)))
    ensures Answer(WayOf(s.mem, root, v), |s.free|, true) == -EINVAL
    ensures SameTranslations(s.mem, s'.mem, root) && Contained(s, s')
    ensures Changes(s.mem, s'.mem, root, v, |s.free|, true, u)
    ensures |s'.free| == |s.free| - Makes(WayOf(s.mem, root, v), |s.free|, 2)
  {
    hide Sound, Stands, SameTranslations, Contained, Word, IsLarge, EntryPaddr, WayOf, Ways, Changes, Index;
    SecondIndex(v);
    ReachesWay(s, s', root, v, 2, u, pd);
    WaysChange(s.mem, s'.mem, root, v, |s.free|, true, u);
  }

  // The ways a request can end.

  lemma FailsAnswered(s: Tables, s': Tables, root: Page, r: Request, u: bool, stop: nat)
    requires Fails(s, s', root, r.vaddr, u, stop) && stop <= Stop(r.large) && u == IsUserRequest(r)
    ensures Answered(s, s', root, r, -ENOMEM) && Contained(s, s')
  {
    hide SameTranslations, Contained, WayOf, Changes, Fails, Answer, Makes, Requested;
    FailsAt(s, s', root, r.vaddr, u, stop, r.large);
  }

  lemma LargeAnswered(s: Tables, s': Tables, root: Page, r: Request, u: bool, pd: Page)
    requires Sound(s, root) && Sound(s', root) && Reaches(s, s', root, r.vaddr, 2, u, pd)
    requires Word(s'.mem, pd, PdIndex(r.vaddr)) != 0 && IsLarge(Word(s'.mem, pd, PdIndex(r.vaddr)))
    requires u == IsUserRequest(r) && !r.large
    ensures Answered(s, s', root, r, -EINVAL) && Contained(s, s')
  {
    hide Sound, Reaches, Word, IsLarge, PdIndex, SameTranslations, Contained, WayOf, Changes, Answer, Makes, Requested;
    ReachesLarge(s, s', root, r.vaddr, u, pd);
  }

  lemma TakenAnswered(s: Tables, s': Tables, root: Page, r: Request, u: bool, pd: Page)
    requires Sound(s, root) && Sound(s', root) && Reaches(s, s', root, r.vaddr, 2, u, pd)
    requires Word(s'.mem, pd, PdIndex(r.vaddr)) != 0 && !IsLarge(Word(s'.mem, pd, PdIndex(r.vaddr)))
    requires u == IsUserRequest(r) && r.large
    ensures Answered(s, s', root, r, -EINVAL) && Contained(s, s')
  {
    hide Sound, Reaches, Word, IsLarge, PdIndex, SameTranslations, Contained, WayOf, Changes, Answer, Makes, Requested;
    ReachesTaken(s, s', root, r.vaddr, u, pd);
  }

  lemma PageAnswered(s: Tables, s': Tables, root: Page, vaddr: bv64, paddr: bv64, prot: bv64, flags: bv64, u: bool,
                     pt: Page)
    requires Sound(s, root) && Sound(s', root) && Reaches(s, s', root, vaddr, 3, u, pt)
    requires u == Requested(prot, flags).user
    ensures var s'' := Leafed(s', pt, PtIndex(vaddr), LeafWord(paddr, prot, flags));
            && Sound(s'', root) && Contained(s, s'')
            && Answered(s, s'', root, Request(false, vaddr, paddr, prot, flags), 0)
  {
    hide Sound, Reaches, Contained, WayOf, Changes, Answer, Makes, Requested, MakeEntry, HwProt, HwFlags, PtIndex,
         MapsPage, Put;
    PageWritten(s, s', root, vaddr, paddr, prot, flags, u, pt);
  }

  lemma BlockAnswered(s: Tables, s': Tables, root: Page, vaddr: bv64, paddr: bv64, prot: bv64, flags: bv64, u: bool,
                      pd: Page)
    requires Sound(s, root) && Sound(s', root) && Reaches(s, s', root, vaddr, 2, u, pd)
    requires Word(s'.mem, pd, PdIndex(vaddr)) == 0 || IsLarge(Word(s'.mem, pd, PdIndex(vaddr)))
    requires u == Requested(prot, flags).user
    ensures var s'' := Leafed(s', pd, PdIndex(vaddr), LargeWord(paddr, prot, flags));
            && Sound(s'', root) && Contained(s, s'')
            && Answered(s, s'', root, Request(true, vaddr, paddr, prot, flags), 0)
  {
    hide Sound, Reaches, Contained, WayOf, Changes, Answer, Makes, Requested, MakeEntry, HwProt, HwFlags, PdIndex,
         MapsBlock, Put, Word, IsLarge;
    BlockWritten(s, s', root, vaddr, paddr, prot, flags, u, pd);
  }

  lemma EntryIs(e: bv64, q: Page)
    requires RefersTo(e, q)
    ensures e != 0 && !IsLarge(e) && Next(e) == q
  {
  }

  // ---------------------------------------------------------------- runs

  // What requests on the tables in `mem` do, when `free` pages are free: the pages left, the way of an address, the
  // answer to one more request, and what an address translates to.

  function FreeAfter(mem: Memory, root: Page, rs: seq<Request>, free: nat): (n: nat)
    ensures n <= free
    decreases |rs|
  {
    if rs == [] then free
    else
      var (r, before) := (rs[|rs| - 1], rs[..|rs| - 1]);
      var left := FreeAfter(mem, root, before, free);
      left - Makes(WayAfter(mem, root, before, free, r.vaddr), left, Stop(r.large))
  }

  function WayAfter(mem: Memory, root: Page, rs: seq<Request>, free: nat, v: bv64): Way
    decreases |rs|
  {
    if rs == [] then WayOf(mem, root, v)
    else
      var (r, before) := (rs[|rs| - 1], rs[..|rs| - 1]);
      After(WayAfter(mem, root, before, free, v), WayAfter(mem, root, before, free, r.vaddr), Common(v, r.vaddr),
            FreeAfter(mem, root, before, free), r.large, IsUserRequest(r))
  }

  function AnswerAfter(mem: Memory, root: Page, rs: seq<Request>, free: nat, r: Request): int {
    Answer(WayAfter(mem, root, rs, free, r.vaddr), FreeAfter(mem, root, rs, free), r.large)
  }

  /** The last granted request that covers `v` decides, and lets user code through if all tables on the way are
      open. */
  function TranslateAfter(mem: Memory, root: Page, rs: seq<Request>, free: nat, v: bv64): Option<Translation>
    decreases |rs|
  {
    if rs == [] then Translate(mem, root, v)
    else
      var (r, before) := (rs[|rs| - 1], rs[..|rs| - 1]);
      if AnswerAfter(mem, root, before, free, r) == 0 && Covers(r, v)
      then Grant(AllOpen(WayAfter(mem, root, rs, free, v).users), Gives(r, v))
      else TranslateAfter(mem, root, before, free, v)
  }

  /** The tables are in the state the requests lead to. */
  ghost predicate Led(mem: Memory, root: Page, rs: seq<Request>, free: nat, s: Tables) {
    && |s.free| == FreeAfter(mem, root, rs, free)
    && (forall v :: WayOf(s.mem, root, v) == WayAfter(mem, root, rs, free, v))
  }

  ghost predicate Agrees(mem: Memory, root: Page, rs: seq<Request>, free: nat, mem': Memory) {
    forall v :: Translate(mem', root, v) == TranslateAfter(mem, root, rs, free, v)
  }

  lemma LedOn(mem: Memory, root: Page, rs: seq<Request>, free: nat, s: Tables, s': Tables, r: Request, err: int)
    requires Led(mem, root, rs, free, s) && Answered(s, s', root, r, err)
    ensures Led(mem, root, rs + [r], free, s') && err == AnswerAfter(mem, root, rs, free, r)
  {
    hide WayOf, Common, After, MapsBlock, MapsPage, SameTranslations, Requested, Makes, Answer;
    assert (rs + [r])[..|rs|] == rs;
    AfterMore(mem, root, rs, free, r);
    forall v ensures WayOf(s'.mem, root, v) == WayAfter(mem, root, rs + [r], free, v) {
      AfterMoreWay(mem, root, rs, free, r, v);
    }
  }

  lemma AfterMore(mem: Memory, root: Page, rs: seq<Request>, free: nat, r: Request)
    ensures var left := FreeAfter(mem, root, rs, free);
            FreeAfter(mem, root, rs + [r], free)
            == left - Makes(WayAfter(mem, root, rs, free, r.vaddr), left, Stop(r.large))
  {
    hide WayOf, Makes, After;
    assert (rs + [r])[..|rs|] == rs;
  }

  lemma AfterMoreWay(mem: Memory, root: Page, rs: seq<Request>, free: nat, r: Request, v: bv64)
    ensures WayAfter(mem, root, rs + [r], free, v)
            == After(WayAfter(mem, root, rs, free, v), WayAfter(mem, root, rs, free, r.vaddr), Common(v, r.vaddr),
                     FreeAfter(mem, root, rs, free), r.large, IsUserRequest(r))
  {
    hide WayOf, After, Common, Requested;
    assert (rs + [r])[..|rs|] == rs;
  }

  lemma AgreesOn(mem: Memory, root: Page, rs: seq<Request>, free: nat, s: Tables, s': Tables, r: Request, err: int)
    requires Led(mem, root, rs, free, s) && Agrees(mem, root, rs, free, s.mem) && Answered(s, s', root, r, err)
    ensures Agrees(mem, root, rs + [r], free, s'.mem)
  {
    hide WayOf, Common, After, Requested, Translate, Grant, AllOpen, SamePage, SameBlock, BlockTranslation,
         PageTranslation, Answer, Makes, WayAfter, FreeAfter, Changes;
    LedOn(mem, root, rs, free, s, s', r, err);
    assert (rs + [r])[..|rs|] == rs;
    forall v ensures Translate(s'.mem, root, v) == TranslateAfter(mem, root, rs + [r], free, v) {
      assert WayOf(s'.mem, root, v) == WayAfter(mem, root, rs + [r], free, v);
    }
  }

  /** Over any run of requests on any tables the answers, the pages left and every translation are what the requests
      and the number of free pages say; the tables stay a tree. */
  method Run(mmu: Mmu, requests: seq<Request>) returns (errs: seq<int>)
    requires mmu.Valid()
    modifies mmu
    ensures mmu.Valid() && |errs| == |requests|
    ensures forall i | 0 <= i < |requests| ::
              errs[i] == AnswerAfter(old(mmu.mem), mmu.root, requests[..i], |old(mmu.free)|, requests[i])
    ensures |mmu.free| == FreeAfter(old(mmu.mem), mmu.root, requests, |old(mmu.free)|)
    ensures forall v :: Translate(mmu.mem, mmu.root, v)
                        == TranslateAfter(old(mmu.mem), mmu.root, requests, |old(mmu.free)|, v)
  {
    hide Translate, TranslateAfter, MapsPage, MapsBlock, SameTranslations, Sound, Contained, Requested, WayOf,
         WayAfter, FreeAfter, AnswerAfter, Changes, Answer, Makes, Led, Agrees;
    ghost var (mem, free) := (mmu.mem, |mmu.free|);
    errs := [];
    NothingAsked(mem, mmu.root, mmu.State());
    for i := 0 to |requests|
      invariant mmu.Valid() && |errs| == i
      invariant Led(mem, mmu.root, requests[..i], free, mmu.State())
      invariant Agrees(mem, mmu.root, requests[..i], free, mmu.mem)
      invariant forall j | 0 <= j < i :: errs[j] == AnswerAfter(mem, mmu.root, requests[..j], free, requests[j])
    {
      var r := requests[i];
      ghost var s := mmu.State();
      var err;
      if r.large {
        err := mmu.MapLargePage(r.vaddr, r.paddr, r.prot, r.flags);
      } else {
        err := mmu.MapSmallPage(r.vaddr, r.paddr, r.prot, r.flags);
      }
      assert requests[..i + 1] == requests[..i] + [r];
      LedOn(mem, mmu.root, requests[..i], free, s, mmu.State(), r, err);
      AgreesOn(mem, mmu.root, requests[..i], free, s, mmu.State(), r, err);
      errs := errs + [err];
    }
    assert requests[..|requests|] == requests;
    LedFree(mem, mmu.root, requests, free, mmu.State());
    AgreesAll(mem, mmu.root, requests, free, mmu.mem);
  }

  lemma NothingAsked(mem: Memory, root: Page, s: Tables)
    requires s.mem == mem
    ensures Led(mem, root, [], |s.free|, s) && Agrees(mem, root, [], |s.free|, mem)
  {
    hide WayOf, Translate;
  }

  lemma LedFree(mem: Memory, root: Page, rs: seq<Request>, free: nat, s: Tables)
    requires Led(mem, root, rs, free, s)
    ensures |s.free| == FreeAfter(mem, root, rs, free)
  {
  }

  lemma AgreesAll(mem: Memory, root: Page, rs: seq<Request>, free: nat, mem': Memory)
    requires Agrees(mem, root, rs, free, mem')
    ensures forall v :: Translate(mem', root, v) == TranslateAfter(mem, root, rs, free, v)
  {
  }

  // ---------------------------------------------------------------- when all requests are granted

  predicate AllGranted(mem: Memory, root: Page, rs: seq<Request>, free: nat) {
    forall i | 0 <= i < |rs| :: AnswerAfter(mem, root, rs[..i], free, rs[i]) == 0
  }

  /** The way of `v` after requests that never lack a page. */
  function WayFull(mem: Memory, root: Page, rs: seq<Request>, v: bv64): Way
    decreases |rs|
  {
    if rs == [] then WayOf(mem, root, v)
    else
      var (r, before) := (rs[|rs| - 1], rs[..|rs| - 1]);
      After(WayFull(mem, root, before, v), WayFull(mem, root, before, r.vaddr), Common(v, r.vaddr), 3, r.large,
            IsUserRequest(r))
  }

  /** How many tables they make. */
  function TablesFor(mem: Memory, root: Page, rs: seq<Request>): nat
    decreases |rs|
  {
    if rs == [] then 0
    else
      var (r, before) := (rs[|rs| - 1], rs[..|rs| - 1]);
      TablesFor(mem, root, before) + Missing(WayFull(mem, root, before, r.vaddr), Stop(r.large))
  }

  lemma AfterEnough(w: Way, way: Way, common: nat, free: nat, large: bool, u: bool)
    requires Missing(way, Stop(large)) <= free
    ensures After(w, way, common, free, large, u) == After(w, way, common, 3, large, u)
    ensures Makes(way, free, Stop(large)) == Missing(way, Stop(large))
    ensures Answer(way, free, large) == 0 <==> if large then |way.users| != 3 else !way.large
  {
    hide Extended;
  }

  /** While there are enough free pages their number does not matter. */
  lemma {:induction false} EnoughPages(mem: Memory, root: Page, rs: seq<Request>, free: nat)
    requires TablesFor(mem, root, rs) <= free
    ensures FreeAfter(mem, root, rs, free) == free - TablesFor(mem, root, rs)
    ensures forall v :: WayAfter(mem, root, rs, free, v) == WayFull(mem, root, rs, v)
    decreases |rs|
  {
    hide WayOf, Common, After, Makes, Missing, Requested;
    if rs != [] {
      var (r, before) := (rs[|rs| - 1], rs[..|rs| - 1]);
      EnoughPages(mem, root, before, free);
      var (way, left) := (WayFull(mem, root, before, r.vaddr), FreeAfter(mem, root, before, free));
      assert rs == before + [r];
      AfterMore(mem, root, before, free, r);
      AfterEnough(way, way, 0, left, r.large, IsUserRequest(r));
      forall v ensures WayAfter(mem, root, rs, free, v) == WayFull(mem, root, rs, v) {
        AfterMoreWay(mem, root, before, free, r, v);
        AfterEnough(WayFull(mem, root, before, v), way, Common(v, r.vaddr), left, r.large, IsUserRequest(r));
      }
    }
  }

  lemma {:induction false} TablesGrow(mem: Memory, root: Page, rs: seq<Request>, i: nat)
    requires i <= |rs|
    ensures TablesFor(mem, root, rs[..i]) <= TablesFor(mem, root, rs)
    decreases |rs|
  {
    hide WayFull, Missing;
    if i < |rs| {
      assert rs[..|rs| - 1][..i] == rs[..i];
      TablesGrow(mem, root, rs[..|rs| - 1], i);
    } else {
      assert rs[..i] == rs;
    }
  }

  /** The block of no request is in use for pages of the other size. */
  predicate Compatible(mem: Memory, root: Page, rs: seq<Request>) {
    forall i | 0 <= i < |rs| :: Suits(WayOf(mem, root, rs[i].vaddr), rs[i].large)
  }

  predicate Suits(w: Way, large: bool) {
    if large then |w.users| != 3 else !w.large
  }

  /** Requests for pages of different sizes are for different blocks. */
  predicate Unmixed(rs: seq<Request>) {
    forall i, j | 0 <= i < j < |rs| && rs[i].large != rs[j].large :: Common(rs[j].vaddr, rs[i].vaddr) < 3
  }

  /** What requests for other blocks, or for pages of the same size, leave as it is. */
  lemma {:induction false} SuitsStill(mem: Memory, root: Page, rs: seq<Request>, v: bv64, large: bool)
    requires forall i | 0 <= i < |rs| && rs[i].large != large :: Common(v, rs[i].vaddr) < 3
    ensures Suits(WayFull(mem, root, rs, v), large) <==> Suits(WayOf(mem, root, v), large)
    decreases |rs|
  {
    hide WayOf, Common, Requested, After;
    if rs != [] {
      var (r, before) := (rs[|rs| - 1], rs[..|rs| - 1]);
      SuitsStill(mem, root, before, v, large);
      SuitsAfter(WayFull(mem, root, before, v), WayFull(mem, root, before, r.vaddr), Common(v, r.vaddr), r.large,
                 IsUserRequest(r), large);
    }
  }

  lemma SuitsAfter(w: Way, way: Way, common: nat, made: bool, u: bool, large: bool)
    requires common <= 3 && (made != large ==> common < 3)
    ensures Suits(After(w, way, common, 3, made, u), large) <==> Suits(w, large)
  {
  }

  /** Such requests are all granted exactly if the blocks suit and there are as many free pages as tables to make. */
  lemma GrantedIff(mem: Memory, root: Page, rs: seq<Request>, free: nat)
    requires Unmixed(rs)
    ensures AllGranted(mem, root, rs, free) <==> Compatible(mem, root, rs) && TablesFor(mem, root, rs) <= free
  {
    hide WayOf, Common, After, Makes, Missing, Requested, WayFull, TablesFor, AnswerAfter, Suits;
    if TablesFor(mem, root, rs) <= free {
      forall i | 0 <= i < |rs|
        ensures AnswerAfter(mem, root, rs[..i], free, rs[i]) == 0 <==> Suits(WayOf(mem, root, rs[i].vaddr), rs[i].large)
      {
        GrantedHere(mem, root, rs, free, i);
      }
    } else {
      var i := RunsOut(mem, root, rs, free);
    }
  }

  lemma GrantedHere(mem: Memory, root: Page, rs: seq<Request>, free: nat, i: nat)
    requires Unmixed(rs) && i < |rs| && TablesFor(mem, root, rs) <= free
    ensures AnswerAfter(mem, root, rs[..i], free, rs[i]) == 0 <==> Suits(WayOf(mem, root, rs[i].vaddr), rs[i].large)
  {
    hide WayOf, Common, After, Requested, WayFull;
    TablesGrow(mem, root, rs, i + 1);
    assert rs[..i + 1][..i] == rs[..i];
    EnoughPages(mem, root, rs[..i], free);
    SuitsStill(mem, root, rs[..i], rs[i].vaddr, rs[i].large);
  }

  /** With fewer pages some request lacks one. */
  lemma {:induction false} RunsOut(mem: Memory, root: Page, rs: seq<Request>, free: nat) returns (i: nat)
    requires TablesFor(mem, root, rs) > free
    ensures i < |rs| && AnswerAfter(mem, root, rs[..i], free, rs[i]) != 0
    decreases |rs|
  {
    hide WayOf, Common, After, Requested, WayFull, Missing;
    var k := |rs| - 1;
    if TablesFor(mem, root, rs[..k]) > free {
      i := RunsOut(mem, root, rs[..k], free);
      assert rs[..k][..i] == rs[..i];
    } else {
      i := k;
      EnoughPages(mem, root, rs[..k], free);
    }
  }

  /** A request for user code does not make anything open or shut. */
  lemma OpenKept(s: Tables, s': Tables, root: Page, r: Request, err: int, v: bv64)
    requires Answered(s, s', root, r, err) && IsUserRequest(r)
    ensures Opened(s'.mem, root, v) == Opened(s.mem, root, v)
  {
    hide WayOf, Common, AllOpen, MapsBlock, MapsPage, SameTranslations, Requested, Answer, Makes;
    var (w, way, n) := (WayOf(s.mem, root, v), WayOf(s.mem, root, r.vaddr),
                        Makes(WayOf(s.mem, root, r.vaddr), |s.free|, Stop(r.large)));
    SharedWay(s.mem, root, r.vaddr, v);
    var d := |way.users|;
    var c := Common(v, r.vaddr);
    AllOpenRepeat(way.users, true, if n == 0 || c <= d then 0 else if c <= d + n then c - d else n);
  }

  /** On empty tables a page at address zero that is not for user code shuts user code out of the next one. */
  lemma ShutOut(root: Page)
    ensures var rs := [Request(false, 0, 0x5000, 0, 0), Request(false, 0x1000, 0x6000, 0, 1)];
            && AnswerAfter(map[], root, rs[..0], 3, rs[0]) == 0 && AnswerAfter(map[], root, rs[..1], 3, rs[1]) == 0
            && Requested(rs[1].prot, rs[1].flags).user
            && TranslateAfter(map[], root, rs, 3, 0x1000)
               == Some(Translation(0x6000, Access(false, false, false, false)))
  {
    hide WayOf, AllOpen, Common, Index;
    var (a, b) := (Request(false, 0, 0x5000, 0, 0), Request(false, 0x1000, 0x6000, 0, 1));
    var rs := [a, b];
    NoTables(root, 0);
    NoTables(root, 0x1000);
    SameFirst();
    assert rs[..0] == [] && rs[..1] == [a] && [a][..0] == [];
    var shut := Repeat(false, 3);
    AllOpenRepeat([], false, 3);
    assert [] + shut == shut;
    assert FreeAfter(map[], root, [], 3) == 3 && FreeAfter(map[], root, [a], 3) == 0;
    assert WayAfter(map[], root, [a], 3, 0x1000) == Way(shut, false);
    assert WayAfter(map[], root, rs, 3, 0x1000) == Way(shut, false);
    LeafOfTwo();
  }

  lemma NoTables(root: Page, v: bv64)
    ensures WayOf(map[], root, v) == Way([], false)
  {
    hide Index;
  }

  lemma SameFirst()
    ensures Common(0x1000, 0) == 3 && Common(0x1000, 0x1000) == 3
  {
  }

  lemma LeafOfTwo()
    ensures SamePage(0x1000, 0x1000)
    ensures Grant(false, PageTranslation(0x6000, Requested(0, 1), 0x1000))
            == Some(Translation(0x6000, Access(false, false, false, false)))
    ensures Requested(0, 1).user && !Requested(0, 0).user
  {
  }
}
