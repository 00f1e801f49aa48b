/** Paging structures of 4-level x86-64 paging: the format of their entries, the translation the
    processor performs, and the shape of the tables in memory. */
module Paging {
  import opened Bytes

  // ---------------------------------------------------------------- entries

  /* Bits of an entry: 0x1 present, 0x2 writable, 0x4 user, 0x10 uncached, 0x80 large, bit 63 no
     execute. The kernel takes 0x8000_0000_0000_07ff for flags and all other bits for the address; the
     processor takes bits 12 to 51 for the address. */

  function MakeEntry(paddr: bv64, flags: bv64): bv64 {
    paddr | flags
  }

  function EntryPaddr(e: bv64): bv64 {
    e & 0x7fff_ffff_ffff_f800
  }

  function EntryFlags(e: bv64): bv64 {
    e & 0x8000_0000_0000_07ff
  }

  function HwAddress(e: bv64): bv64 {
    e & 0x000f_ffff_ffff_f000
  }

  predicate IsLarge(e: bv64) {
    e & 0x80 != 0
  }

  predicate IsPresent(e: bv64) {
    e & 0x1 != 0
  }

  /** The address of a 4 KiB frame. */
  predicate IsFrame(paddr: bv64) {
    paddr & 0xfff0_0000_0000_0fff == 0
  }

  predicate IsFlags(flags: bv64) {
    flags & 0x7fff_ffff_ffff_f800 == 0
  }

  /** Unpacking undoes packing, and the processor sees the same address the kernel does. */
  lemma EntryRoundTrip(paddr: bv64, flags: bv64)
    requires IsFrame(paddr) && IsFlags(flags)
    ensures EntryPaddr(MakeEntry(paddr, flags)) == paddr && EntryFlags(MakeEntry(paddr, flags)) == flags
    ensures HwAddress(MakeEntry(paddr, flags)) == paddr
    ensures IsLarge(MakeEntry(paddr, flags)) == IsLarge(flags)
    ensures IsPresent(MakeEntry(paddr, flags)) == IsPresent(flags)
  {
    Packing(paddr, flags);
  }

  lemma Packing(p: bv64, f: bv64)
    requires p & 0xfff0_0000_0000_0fff == 0 && f & 0x7fff_ffff_ffff_f800 == 0
    ensures (p | f) & 0x7fff_ffff_ffff_f800 == p && (p | f) & 0x000f_ffff_ffff_f000 == p
    ensures (p | f) & 0x8000_0000_0000_07ff == f && (p | f) & 0x80 == f & 0x80 && (p | f) & 0x1 == f & 0x1
  {
  }

  // ---------------------------------------------------------------- indices

  function Pml4Index(v: bv64): bv64 { (v >> 39) & 0x1ff }

  function PdptIndex(v: bv64): bv64 { (v >> 30) & 0x1ff }

  function PdIndex(v: bv64): bv64 { (v >> 21) & 0x1ff }

  function PtIndex(v: bv64): bv64 { (v >> 12) & 0x1ff }

  /** The table index a virtual address has at a level; level 0 is the page map level 4. */
  function Index(v: bv64, level: int): bv64
    requires 0 <= level <= 3
  {
    if level == 0 then Pml4Index(v) else if level == 1 then PdptIndex(v)
    else if level == 2 then PdIndex(v) else PtIndex(v)
  }

  function IndexToVaddr(i0: bv64, i1: bv64, i2: bv64, i3: bv64): bv64 {
    (i0 << 39) | (i1 << 30) | (i2 << 21) | (i3 << 12)
  }

  /** The indices determine the page of an address and nothing else. */
  lemma IndexRoundTrip(v: bv64)
    ensures IndexToVaddr(Pml4Index(v), PdptIndex(v), PdIndex(v), PtIndex(v)) == v & 0x0000_ffff_ffff_f000
  {
  }

  /** The same 4 KiB page. */
  predicate SamePage(v: bv64, w: bv64) {
    v & 0x0000_ffff_ffff_f000 == w & 0x0000_ffff_ffff_f000
  }

  /** The same 2 MiB block. */
  predicate SameBlock(v: bv64, w: bv64) {
    v & 0x0000_ffff_ffe0_0000 == w & 0x0000_ffff_ffe0_0000
  }

  /** The same first two indices. */
  predicate SameDirectory(v: bv64, w: bv64) {
    v & 0x0000_ffff_c000_0000 == w & 0x0000_ffff_c000_0000
  }

  lemma BlockIndices(v: bv64, w: bv64)
    ensures SameBlock(v, w) <==>
            Pml4Index(v) == Pml4Index(w) && PdptIndex(v) == PdptIndex(w) && PdIndex(v) == PdIndex(w)
  {
    hide Pml4Index, PdptIndex, PdIndex, SameDirectory, SameBlock;
    DirectoryIndices(v, w);
    BlockIndex(v, w);
  }

  lemma BlockIndex(v: bv64, w: bv64)
    ensures SameBlock(v, w) <==> SameDirectory(v, w) && PdIndex(v) == PdIndex(w)
  {
    BlockBits(v, w);
  }

  lemma BlockBits(v: bv64, w: bv64)
    ensures v & 0x0000_ffff_ffe0_0000 == w & 0x0000_ffff_ffe0_0000 <==>
            v & 0x0000_ffff_c000_0000 == w & 0x0000_ffff_c000_0000 && (v >> 21) & 0x1ff == (w >> 21) & 0x1ff
  {
  }

  lemma DirectoryIndices(v: bv64, w: bv64)
    ensures SameDirectory(v, w) <==> Pml4Index(v) == Pml4Index(w) && PdptIndex(v) == PdptIndex(w)
  {
    DirectoryBits(v, w);
    assert Pml4Index(v) == Pml4Index(w) <==> v & 0x0000_ff80_0000_0000 == w & 0x0000_ff80_0000_0000;
    assert PdptIndex(v) == PdptIndex(w) <==> v & 0x0000_007f_c000_0000 == w & 0x0000_007f_c000_0000;
  }

  lemma DirectoryBits(v: bv64, w: bv64)
    ensures v & 0x0000_ffff_c000_0000 == w & 0x0000_ffff_c000_0000 <==>
            && v & 0x0000_ff80_0000_0000 == w & 0x0000_ff80_0000_0000
            && v & 0x0000_007f_c000_0000 == w & 0x0000_007f_c000_0000
    ensures v & 0x0000_ff80_0000_0000 == w & 0x0000_ff80_0000_0000 <==> (v >> 39) & 0x1ff == (w >> 39) & 0x1ff
    ensures v & 0x0000_007f_c000_0000 == w & 0x0000_007f_c000_0000 <==> (v >> 30) & 0x1ff == (w >> 30) & 0x1ff
  {
  }

  lemma PageIndices(v: bv64, w: bv64)
    ensures SamePage(v, w) <==> SameBlock(v, w) && PtIndex(v) == PtIndex(w)
  {
    PageBits(v, w);
  }

  lemma PageBits(v: bv64, w: bv64)
    ensures v & 0x0000_ffff_ffff_f000 == w & 0x0000_ffff_ffff_f000 <==>
            v & 0x0000_ffff_ffe0_0000 == w & 0x0000_ffff_ffe0_0000 && (v >> 12) & 0x1ff == (w >> 12) & 0x1ff
  {
  }

  lemma IndexInTable(v: bv64, level: int)
    requires 0 <= level <= 3
    ensures Index(v, level) < 512
  {
  }

  // ---------------------------------------------------------------- the processor

  /** Memory as 64-bit words: the word `i` of the page `p`. Words never written are zero. */
  type Memory = map<Slot, bv64>

  /** A page of memory, by its physical address. */
  datatype Page = Page(addr: bv64)

  datatype Slot = Slot(page: Page, index: bv64)

  function Word(mem: Memory, p: Page, i: bv64): bv64 {
    if Slot(p, i) in mem then mem[Slot(p, i)] else 0
  }

  datatype Access = Access(writable: bool, user: bool, uncached: bool, executable: bool)

  datatype Translation = Translation(paddr: bv64, access: Access)

  /** What the lowest entry of a walk permits. */
  function AccessOf(e: bv64): Access {
    Access(e & 0x2 != 0, e & 0x4 != 0, e & 0x10 != 0, e & 0x8000_0000_0000_0000 == 0)
  }

  /** What a 2 MiB leaf translates to: bits 13 to 20 of its entry are reserved. */
  function BlockLeaf(e: bv64, v: bv64): Option<Translation> {
    if e & 0x1f_e000 != 0 then None
    else Some(Translation((e & 0x000f_ffff_ffe0_0000) | (v & 0x1f_ffff), AccessOf(e)))
  }

  function PageLeaf(e: bv64, v: bv64): Option<Translation> {
    Some(Translation(HwAddress(e) | (v & 0xfff), AccessOf(e)))
  }

  /** What a leaf at a level above the last translates to. */
  function LargeLeaf(e: bv64, level: int, v: bv64): Option<Translation> {
    if level == 2 then BlockLeaf(e, v)
    else if level == 1 then
      if e & 0x3fff_e000 != 0 then None
      else Some(Translation((e & 0x000f_ffff_c000_0000) | (v & 0x3fff_ffff), AccessOf(e)))
    else None
  }

  predicate IsUser(e: bv64) {
    e & 0x4 != 0
  }

  /** An entry that takes neither writing nor executing away. */
  predicate Permits(e: bv64) {
    e & 0x2 != 0 && e & 0x8000_0000_0000_0000 == 0
  }

  /** What an entry above a leaf leaves of the access the leaf permits. */
  function Narrow(e: bv64, t: Option<Translation>): Option<Translation> {
    match t
    case None => None
    case Some(Translation(paddr, a)) =>
      Some(Translation(paddr, Access(a.writable && e & 0x2 != 0, a.user && IsUser(e), a.uncached,
                                     a.executable && e & 0x8000_0000_0000_0000 == 0)))
  }

  /** A translation, without access from user code unless it is open. */
  function Grant(open: bool, t: Option<Translation>): Option<Translation> {
    match t
    case None => None
    case Some(Translation(paddr, a)) => Some(Translation(paddr, a.(user := a.user && open)))
  }

  lemma NarrowTable(e: bv64, t: Option<Translation>)
    requires Permits(e)
    ensures Narrow(e, t) == Grant(IsUser(e), t)
  {
  }

  /** The processor's walk from the table at `p`. */
  function Walk(mem: Memory, p: Page, level: int, v: bv64): Option<Translation>
    requires 0 <= level <= 3
    decreases 3 - level
  {
    var e := Word(mem, p, Index(v, level));
    if !IsPresent(e) then None
    else if level == 3 then PageLeaf(e, v)
    else if IsLarge(e) then LargeLeaf(e, level, v)
    else Narrow(e, Walk(mem, Page(HwAddress(e)), level + 1, v))
  }

  function Translate(mem: Memory, root: Page, v: bv64): Option<Translation> {
    Walk(mem, root, 0, v)
  }

  // ---------------------------------------------------------------- the tables

  /** Which pages are tables, at which level, and the one entry that refers to each. */
  datatype Shape = Shape(level: map<Page, int>, owner: map<Page, Slot>)

  /** Levels and owners fit together. */
  ghost predicate ShapeOk(sh: Shape, root: Page) {
    && root in sh.level && sh.level[root] == 0
    && (forall p | p in sh.level :: 0 <= sh.level[p] <= 3 && IsFrame(p.addr))
    && (forall q | q in sh.level && q != root :: HasOwner(sh, q))
  }

  ghost predicate HasOwner(sh: Shape, q: Page)
    requires q in sh.level
  {
    && q in sh.owner && sh.owner[q].page in sh.level && sh.owner[q].index < 512
    && sh.level[q] == sh.level[sh.owner[q].page] + 1
  }

  /** The word refers to the table `q`. */
  predicate RefersTo(e: bv64, q: Page) {
    e != 0 && IsPresent(e) && !IsLarge(e) && Permits(e) && EntryPaddr(e) == q.addr && HwAddress(e) == q.addr
  }

  /** The word `i` of table `p` is empty, a leaf, or refers to a table that it owns. */
  ghost predicate WordOk(mem: Memory, sh: Shape, p: Page, i: bv64)
    requires p in sh.level
  {
    var e := Word(mem, p, i);
    sh.level[p] < 3 && e != 0 && !(sh.level[p] == 2 && IsLarge(e)) ==>
      var q := Page(EntryPaddr(e));
      RefersTo(e, q) && q in sh.level && sh.level[q] == sh.level[p] + 1 && q in sh.owner && sh.owner[q] == Slot(p, i)
  }

  /** The tables form a tree: every table but the root is referred to by exactly one word. */
  ghost predicate Tree(mem: Memory, root: Page, sh: Shape) {
    && ShapeOk(sh, root)
    && (forall p, i: bv64 | p in sh.level && i < 512 :: WordOk(mem, sh, p, i))
    && (forall q | q in sh.level && q != root ::
          HasOwner(sh, q) && RefersTo(Word(mem, sh.owner[q].page, sh.owner[q].index), q))
  }

  /** No sharing: two words of tables that refer to the same table are the same word. */
  lemma NoSharing(mem: Memory, root: Page, sh: Shape, p: Page, i: bv64, p': Page, i': bv64)
    requires Tree(mem, root, sh) && p in sh.level && p' in sh.level && sh.level[p] < 3 && sh.level[p'] < 3
    requires i < 512 && i' < 512
    requires !IsLarge(Word(mem, p, i)) && !IsLarge(Word(mem, p', i')) && Word(mem, p, i) != 0 && Word(mem, p', i') != 0
    requires EntryPaddr(Word(mem, p, i)) == EntryPaddr(Word(mem, p', i'))
    ensures p == p' && i == i'
  {
    hide IsLarge, EntryPaddr, RefersTo;
    assert WordOk(mem, sh, p, i) && WordOk(mem, sh, p', i');
  }

  /** The walk of `v` comes by the table `q`. */
  ghost predicate On(sh: Shape, root: Page, q: Page, v: bv64)
    requires ShapeOk(sh, root) && q in sh.level
    decreases sh.level[q]
  {
    q == root ||
    (assert HasOwner(sh, q);
     sh.owner[q].index == Index(v, sh.level[sh.owner[q].page]) && On(sh, root, sh.owner[q].page, v))
  }

  lemma ZeroWord()
    ensures !IsPresent(0) && !IsLarge(0)
  {
  }

  // ---------------------------------------------------------------- the way of an address

  /** The tables an address has below the root: whether each is open to user code, and whether they end at a large
      page. */
  datatype Way = Way(users: seq<bool>, large: bool)

  function WayFrom(mem: Memory, p: Page, level: int, v: bv64): (r: Way)
    requires 0 <= level <= 3
    ensures |r.users| <= 3 - level && (r.large ==> |r.users| == 2 - level)
    decreases 3 - level
  {
    if level == 3 then Way([], false)
    else
      var e := Word(mem, p, Index(v, level));
      if e == 0 then Way([], false)
      else if level == 2 && IsLarge(e) then Way([], true)
      else
        var w := WayFrom(mem, Page(EntryPaddr(e)), level + 1, v);
        Way([IsUser(e)] + w.users, w.large)
  }

  function WayOf(mem: Memory, root: Page, v: bv64): (r: Way)
    ensures |r.users| <= 3 && (r.large ==> |r.users| == 2)
  {
    WayFrom(mem, root, 0, v)
  }

  lemma WayStep(mem: Memory, p: Page, level: int, v: bv64)
    requires 0 <= level <= 3
    ensures level == 3 ==> WayFrom(mem, p, level, v) == Way([], false)
    ensures level < 3 ==>
              var e := Word(mem, p, Index(v, level));
              WayFrom(mem, p, level, v) ==
              if e == 0 then Way([], false)
              else if level == 2 && IsLarge(e) then Way([], true)
              else Way([IsUser(e)] + WayFrom(mem, Page(EntryPaddr(e)), level + 1, v).users,
                       WayFrom(mem, Page(EntryPaddr(e)), level + 1, v).large)
  {
    hide Index, IsLarge, EntryPaddr, Word, IsUser;
  }

  predicate AllOpen(users: seq<bool>) {
    users == [] || (users[|users| - 1] && AllOpen(users[..|users| - 1]))
  }

  lemma AllOpenPush(users: seq<bool>, u: bool)
    ensures AllOpen(users + [u]) <==> AllOpen(users) && u
  {
    assert (users + [u])[..|users|] == users;
  }

  /** The tables down to `q`. */
  function UsersTo(mem: Memory, sh: Shape, root: Page, q: Page): (r: seq<bool>)
    requires ShapeOk(sh, root) && q in sh.level
    ensures |r| == sh.level[q]
    decreases sh.level[q]
  {
    if q == root then []
    else
      assert HasOwner(sh, q);
      UsersTo(mem, sh, root, sh.owner[q].page) + [IsUser(Word(mem, sh.owner[q].page, sh.owner[q].index))]
  }

  /** A walk that comes by a table continues from it, with what the tables above it leave. */
  lemma {:induction false} WalkOn(mem: Memory, root: Page, sh: Shape, q: Page, v: bv64)
    requires Tree(mem, root, sh) && q in sh.level && On(sh, root, q, v)
    ensures Walk(mem, root, 0, v) == Grant(AllOpen(UsersTo(mem, sh, root, q)), Walk(mem, q, sh.level[q], v))
    decreases sh.level[q]
  {
    hide Index, IsFrame, IsPresent, IsLarge, EntryPaddr, HwAddress, PageLeaf, LargeLeaf, WordOk, IsUser, Permits,
         Narrow, Grant, AllOpen;
    if q == root {
      GrantAll(Walk(mem, root, 0, v));
    } else {
      assert HasOwner(sh, q);
      var (o, e) := (sh.owner[q].page, Word(mem, sh.owner[q].page, sh.owner[q].index));
      WalkOn(mem, root, sh, o, v);
      NarrowTable(e, Walk(mem, q, sh.level[q], v));
      AllOpenPush(UsersTo(mem, sh, root, o), IsUser(e));
      GrantTwice(AllOpen(UsersTo(mem, sh, root, o)), IsUser(e), Walk(mem, q, sh.level[q], v));
    }
  }

  lemma GrantAll(t: Option<Translation>)
    ensures AllOpen([]) && Grant(true, t) == t
  {
  }

  lemma GrantTwice(a: bool, b: bool, t: Option<Translation>)
    ensures Grant(a, Grant(b, t)) == Grant(a && b, t)
  {
  }

  lemma RootLevel(sh: Shape, root: Page)
    requires ShapeOk(sh, root)
    ensures root in sh.level && sh.level[root] == 0
  {
  }

  lemma UsersStep(mem: Memory, sh: Shape, root: Page, q: Page, v: bv64)
    requires ShapeOk(sh, root) && q in sh.level && On(sh, root, q, v)
    ensures q == root ==> UsersTo(mem, sh, root, q) == []
    ensures q != root ==>
              && HasOwner(sh, q) && 0 <= sh.level[sh.owner[q].page] <= 3 && On(sh, root, sh.owner[q].page, v)
              && sh.owner[q].index == Index(v, sh.level[sh.owner[q].page])
              && UsersTo(mem, sh, root, q)
                 == UsersTo(mem, sh, root, sh.owner[q].page) + [IsUser(Word(mem, sh.owner[q].page, sh.owner[q].index))]
  {
    hide Index, IsUser, Word, IsFrame;
  }

  /** The word a table is referred to by. */
  lemma Owned(mem: Memory, root: Page, sh: Shape, q: Page)
    requires Tree(mem, root, sh) && q in sh.level && q != root
    ensures HasOwner(sh, q) && 0 <= sh.level[sh.owner[q].page] < 3
    ensures var e := Word(mem, sh.owner[q].page, sh.owner[q].index); e != 0 && !IsLarge(e) && Page(EntryPaddr(e)) == q
  {
    hide IsLarge, EntryPaddr, Word, IsFrame, WordOk, HwAddress, Permits, IsPresent;
  }

  /** The way of an address goes on from a table it comes by. */
  lemma {:induction false} WayOn(mem: Memory, root: Page, sh: Shape, q: Page, v: bv64)
    requires Tree(mem, root, sh) && q in sh.level && On(sh, root, q, v) && 0 <= sh.level[q] <= 3
    ensures var r := WayFrom(mem, q, sh.level[q], v);
            WayOf(mem, root, v) == Way(UsersTo(mem, sh, root, q) + r.users, r.large)
    decreases sh.level[q]
  {
    hide Index, IsLarge, EntryPaddr, IsUser, WayFrom, Word, Tree, ShapeOk, On, UsersTo;
    var r := WayFrom(mem, q, sh.level[q], v);
    TreeShape(mem, root, sh, q);
    UsersStep(mem, sh, root, q, v);
    if q == root {
      RootLevel(sh, root);
      assert [] + r.users == r.users;
    } else {
      Owned(mem, root, sh, q);
      var (o, e) := (sh.owner[q].page, Word(mem, sh.owner[q].page, sh.owner[q].index));
      WayOn(mem, root, sh, o, v);
      WayStep(mem, o, sh.level[o], v);
      Assoc(UsersTo(mem, sh, root, o), [IsUser(e)], r.users);
    }
  }

  /** Outside the word `i` of table `p` and outside the tables anything may change. */
  ghost predicate SameTables(mem: Memory, mem': Memory, sh: Shape, p: Page, i: bv64) {
    forall p', i' | p' in sh.level && !(p' == p && i' == i) :: Word(mem', p', i') == Word(mem, p', i')
  }

  /** A walk that does not use a word does not depend on it. */
  lemma {:induction false} WalkFrame(mem: Memory, mem': Memory, root: Page, sh: Shape, q: Page, v: bv64,
                                     p: Page, i: bv64)
    requires Tree(mem, root, sh) && q in sh.level && On(sh, root, q, v) && p in sh.level
    requires SameTables(mem, mem', sh, p, i) && !(On(sh, root, p, v) && Index(v, sh.level[p]) == i)
    ensures Walk(mem', q, sh.level[q], v) == Walk(mem, q, sh.level[q], v)
    decreases 3 - sh.level[q]
  {
    hide Index, IsPresent, IsLarge, HwAddress, PageLeaf, LargeLeaf, SameTables, Word, Tree, ShapeOk, On;
    TreeShape(mem, root, sh, q);
    var j := Index(v, sh.level[q]);
    var e := Word(mem, q, j);
    SameWord(mem, mem', sh, p, i, q, j);
    if IsPresent(e) && sh.level[q] < 3 && !IsLarge(e) {
      NextTable(mem, root, sh, q, v);
      WalkFrame(mem, mem', root, sh, Page(HwAddress(e)), v, p, i);
    }
  }

  /** Where a walk goes on from a table. */
  lemma NextTable(mem: Memory, root: Page, sh: Shape, q: Page, v: bv64)
    requires Tree(mem, root, sh) && q in sh.level && On(sh, root, q, v) && sh.level[q] < 3
    requires var e := Word(mem, q, Index(v, sh.level[q])); IsPresent(e) && !IsLarge(e)
    ensures var q' := Page(HwAddress(Word(mem, q, Index(v, sh.level[q]))));
            && q' in sh.level && sh.level[q'] == sh.level[q] + 1 && On(sh, root, q', v)
  {
    hide Index, IsFrame, IsPresent, IsLarge, EntryPaddr, HwAddress, Word;
    IndexInTable(v, sh.level[q]);
    ZeroWord();
    assert WordOk(mem, sh, q, Index(v, sh.level[q]));
  }

  lemma SameWord(mem: Memory, mem': Memory, sh: Shape, p: Page, i: bv64, p': Page, i': bv64)
    requires SameTables(mem, mem', sh, p, i) && p' in sh.level && !(p' == p && i' == i)
    ensures Word(mem', p', i') == Word(mem, p', i')
  {
  }

  /** Walks that come by the same table agree on the indices that led there. */
  lemma {:induction false} OnSame(sh: Shape, root: Page, q: Page, v: bv64, w: bv64)
    requires ShapeOk(sh, root) && q in sh.level && On(sh, root, q, w)
    ensures On(sh, root, q, v) <==> forall k | 0 <= k < sh.level[q] :: Index(v, k) == Index(w, k)
    decreases sh.level[q]
  {
    hide Index, IsFrame;
    if q != root {
      assert HasOwner(sh, q);
      OnSame(sh, root, sh.owner[q].page, v, w);
    }
  }

  // ---------------------------------------------------------------- updates

  function Put(mem: Memory, p: Page, i: bv64, e: bv64): Memory {
    mem[Slot(p, i) := e]
  }

  function Cleared(mem: Memory, q: Page): Memory {
    map k | k in mem && k.page != q :: mem[k]
  }

  lemma PutWord(mem: Memory, p: Page, i: bv64, e: bv64, p': Page, i': bv64)
    ensures Word(Put(mem, p, i, e), p', i') == if p' == p && i' == i then e else Word(mem, p', i')
  {
  }

  lemma ClearedWord(mem: Memory, q: Page, p: Page, i: bv64)
    ensures Word(Cleared(mem, q), p, i) == if p == q then 0 else Word(mem, p, i)
  {
  }

  /** The memory after a cleared page `q` was linked in at word `i` of `p`. */
  function Linked(mem: Memory, p: Page, i: bv64, q: Page, e: bv64): Memory {
    Put(Cleared(mem, q), p, i, e)
  }

  lemma LinkedWord(mem: Memory, p: Page, i: bv64, q: Page, e: bv64, p': Page, i': bv64)
    ensures Word(Linked(mem, p, i, q, e), p', i') ==
            if p' == p && i' == i then e else if p' == q then 0 else Word(mem, p', i')
  {
    hide Word, Put, Cleared;
    PutWord(Cleared(mem, q), p, i, e, p', i');
    ClearedWord(mem, q, p', i');
  }

  /** Writing a leaf over an empty word or a leaf keeps the tree. */
  lemma LeafTree(mem: Memory, root: Page, sh: Shape, p: Page, i: bv64, e: bv64)
    requires Tree(mem, root, sh) && p in sh.level
    requires sh.level[p] == 3 || (sh.level[p] == 2 && IsLarge(e) && (Word(mem, p, i) == 0 || IsLarge(Word(mem, p, i))))
    ensures Tree(Put(mem, p, i, e), root, sh)
  {
    hide IsFrame, IsPresent, IsLarge, EntryPaddr, HwAddress;
    var mem' := Put(mem, p, i, e);
    forall p', i': bv64 | p' in sh.level && i' < 512
      ensures WordOk(mem', sh, p', i')
    {
      assert WordOk(mem, sh, p', i');
    }
    forall q | q in sh.level && q != root
      ensures HasOwner(sh, q) && RefersTo(Word(mem', sh.owner[q].page, sh.owner[q].index), q)
    {
      assert HasOwner(sh, q) && RefersTo(Word(mem, sh.owner[q].page, sh.owner[q].index), q);
    }
  }

  function Grown(sh: Shape, p: Page, i: bv64, q: Page): Shape
    requires p in sh.level
  {
    Shape(sh.level[q := sh.level[p] + 1], sh.owner[q := Slot(p, i)])
  }

  lemma GrownAt(sh: Shape, p: Page, i: bv64, q: Page, p': Page)
    requires p in sh.level
    ensures var sh' := Grown(sh, p, i, q);
            && (p' in sh'.level <==> p' == q || p' in sh.level)
            && (p' == q ==> q in sh'.owner && sh'.level[q] == sh.level[p] + 1 && sh'.owner[q] == Slot(p, i))
            && (p' != q && p' in sh.level ==> sh'.level[p'] == sh.level[p'])
            && (p' != q && p' in sh.owner ==> p' in sh'.owner && sh'.owner[p'] == sh.owner[p'])
  {
  }

  lemma GrownShape(sh: Shape, root: Page, p: Page, i: bv64, q: Page)
    requires ShapeOk(sh, root) && p in sh.level && sh.level[p] < 3 && i < 512 && q !in sh.level && IsFrame(q.addr)
    ensures ShapeOk(Grown(sh, p, i, q), root)
  {
    hide IsFrame, Grown;
    var sh' := Grown(sh, p, i, q);
    GrownAt(sh, p, i, q, root);
    GrownAt(sh, p, i, q, p);
    forall p' | p' in sh'.level
      ensures 0 <= sh'.level[p'] <= 3 && IsFrame(p'.addr)
      ensures p' != root ==> HasOwner(sh', p')
    {
      GrownAt(sh, p, i, q, p');
      if p' != q && p' != root {
        assert HasOwner(sh, p');
        GrownAt(sh, p, i, q, sh.owner[p'].page);
      }
    }
  }

  /** Linking a fresh empty table into an empty word keeps the tree. */
  lemma GrowTree(mem: Memory, root: Page, sh: Shape, p: Page, i: bv64, q: Page, e: bv64)
    requires Tree(mem, root, sh) && p in sh.level && sh.level[p] < 3 && i < 512 && Word(mem, p, i) == 0
    requires q !in sh.level && IsFrame(q.addr) && RefersTo(e, q)
    ensures Tree(Linked(mem, p, i, q, e), root, Grown(sh, p, i, q))
  {
    hide IsFrame, RefersTo, IsLarge, EntryPaddr, Word, Linked, Grown, ShapeOk, WordOk;
    var (mem', sh') := (Linked(mem, p, i, q, e), Grown(sh, p, i, q));
    GrownShape(sh, root, p, i, q);
    forall p', i': bv64 | p' in sh'.level && i' < 512
      ensures WordOk(mem', sh', p', i')
    {
      GrownAt(sh, p, i, q, p');
      GrownWord(mem, sh, p, i, q, e, p', i');
    }
    forall q' | q' in sh'.level && q' != root
      ensures HasOwner(sh', q') && RefersTo(Word(mem', sh'.owner[q'].page, sh'.owner[q'].index), q')
    {
      GrownOwner(mem, root, sh, p, i, q, e, q');
    }
  }

  lemma GrownWord(mem: Memory, sh: Shape, p: Page, i: bv64, q: Page, e: bv64, p': Page, i': bv64)
    requires p in sh.level && sh.level[p] < 3 && q !in sh.level && RefersTo(e, q)
    requires p' in Grown(sh, p, i, q).level && (p' in sh.level ==> WordOk(mem, sh, p', i'))
    ensures WordOk(Linked(mem, p, i, q, e), Grown(sh, p, i, q), p', i')
  {
    hide IsFrame, IsLarge, IsPresent, HwAddress, EntryPaddr, Word, Linked, Grown;
    LinkedWord(mem, p, i, q, e, p', i');
    GrownAt(sh, p, i, q, p');
    GrownAt(sh, p, i, q, q);
    GrownAt(sh, p, i, q, Page(EntryPaddr(Word(mem, p', i'))));
  }

  lemma GrownOwner(mem: Memory, root: Page, sh: Shape, p: Page, i: bv64, q: Page, e: bv64, q': Page)
    requires Tree(mem, root, sh) && p in sh.level && Word(mem, p, i) == 0
    requires q !in sh.level && RefersTo(e, q) && ShapeOk(Grown(sh, p, i, q), root)
    requires q' in Grown(sh, p, i, q).level && q' != root
    ensures var sh' := Grown(sh, p, i, q);
            HasOwner(sh', q') && RefersTo(Word(Linked(mem, p, i, q, e), sh'.owner[q'].page, sh'.owner[q'].index), q')
  {
    hide IsFrame, IsLarge, IsPresent, HwAddress, EntryPaddr, Word, Linked, Grown, WordOk;
    var sh' := Grown(sh, p, i, q);
    GrownAt(sh, p, i, q, q');
    assert HasOwner(sh', q');
    LinkedWord(mem, p, i, q, e, sh'.owner[q'].page, sh'.owner[q'].index);
    if q' != q {
      assert HasOwner(sh, q') && RefersTo(Word(mem, sh.owner[q'].page, sh.owner[q'].index), q');
    }
  }

  /** Linking it in changes no translation. */
  lemma GrowWalk(mem: Memory, root: Page, sh: Shape, p: Page, i: bv64, q: Page, e: bv64, v: bv64)
    requires Tree(mem, root, sh) && p in sh.level && sh.level[p] < 3 && i < 512 && Word(mem, p, i) == 0
    requires q !in sh.level && IsFrame(q.addr) && RefersTo(e, q)
    ensures Translate(Linked(mem, p, i, q, e), root, v) == Translate(mem, root, v)
  {
    hide Index, IsFrame, RefersTo, Word, Linked, Grown, Walk, ShapeOk, On, Tree, SameTables;
    TreeShape(mem, root, sh, p);
    OnRoot(sh, root, v);
    if On(sh, root, p, v) && Index(v, sh.level[p]) == i {
      WalkOn(mem, root, sh, p, v);
      WalkZero(mem, p, sh.level[p], v);
      GrownEmpty(mem, root, sh, p, i, q, e, v);
    } else {
      LinkedSame(mem, sh, p, i, q, e);
      WalkFrame(mem, Linked(mem, p, i, q, e), root, sh, root, v, p, i);
    }
  }

  lemma TreeShape(mem: Memory, root: Page, sh: Shape, p: Page)
    requires Tree(mem, root, sh) && p in sh.level
    ensures ShapeOk(sh, root) && 0 <= sh.level[p] <= 3
  {
  }

  lemma LinkedSame(mem: Memory, sh: Shape, p: Page, i: bv64, q: Page, e: bv64)
    requires q !in sh.level
    ensures SameTables(mem, Linked(mem, p, i, q, e), sh, p, i)
  {
    hide Word, Linked;
    forall p', i' | p' in sh.level && !(p' == p && i' == i)
      ensures Word(Linked(mem, p, i, q, e), p', i') == Word(mem, p', i')
    {
      LinkedWord(mem, p, i, q, e, p', i');
    }
  }

  lemma GrownEmpty(mem: Memory, root: Page, sh: Shape, p: Page, i: bv64, q: Page, e: bv64, v: bv64)
    requires Tree(mem, root, sh) && p in sh.level && sh.level[p] < 3 && i < 512 && Word(mem, p, i) == 0
    requires q !in sh.level && IsFrame(q.addr) && RefersTo(e, q)
    requires On(sh, root, p, v) && Index(v, sh.level[p]) == i
    ensures Translate(Linked(mem, p, i, q, e), root, v) == None
  {
    hide Index, IsFrame, RefersTo, Word, Linked, Grown, Walk, ShapeOk, On, Tree;
    var (mem', sh') := (Linked(mem, p, i, q, e), Grown(sh, p, i, q));
    TreeShape(mem, root, sh, p);
    GrowTree(mem, root, sh, p, i, q, e);
    GrownAt(sh, p, i, q, p);
    TreeShape(mem', root, sh', p);
    OnGrown(sh, root, p, i, q, p, v);
    WalkOn(mem', root, sh', p, v);
    LinkedWord(mem, p, i, q, e, p, i);
    LinkedWord(mem, p, i, q, e, q, Index(v, sh.level[p] + 1));
    WalkLink(mem', p, sh.level[p], v, q);
  }

  lemma OnRoot(sh: Shape, root: Page, v: bv64)
    requires ShapeOk(sh, root)
    ensures root in sh.level && sh.level[root] == 0 && On(sh, root, root, v)
  {
  }

  lemma WalkZero(mem: Memory, p: Page, level: int, v: bv64)
    requires 0 <= level <= 3 && Word(mem, p, Index(v, level)) == 0
    ensures Walk(mem, p, level, v) == None
  {
    hide Index, IsPresent, Word, LargeLeaf, PageLeaf;
    ZeroWord();
  }

  /** A word that refers to a table whose next word is empty translates nothing. */
  lemma WalkLink(mem: Memory, p: Page, level: int, v: bv64, q: Page)
    requires 0 <= level < 3 && RefersTo(Word(mem, p, Index(v, level)), q) && Word(mem, q, Index(v, level + 1)) == 0
    ensures Walk(mem, p, level, v) == None
  {
    hide Index, IsPresent, IsLarge, HwAddress, EntryPaddr, Word, LargeLeaf, PageLeaf;
    WalkZero(mem, q, level + 1, v);
  }

  lemma {:induction false} OnGrown(sh: Shape, root: Page, p: Page, i: bv64, q: Page, p': Page, v: bv64)
    requires ShapeOk(sh, root) && p in sh.level && q !in sh.level && p' in sh.level && ShapeOk(Grown(sh, p, i, q), root)
    ensures p' in Grown(sh, p, i, q).level && On(Grown(sh, p, i, q), root, p', v) == On(sh, root, p', v)
    decreases sh.level[p']
  {
    hide Index, IsFrame, Grown;
    GrownAt(sh, p, i, q, p');
    if p' != root {
      assert HasOwner(sh, p') && HasOwner(Grown(sh, p, i, q), p');
      GrownAt(sh, p, i, q, sh.owner[p'].page);
      OnGrown(sh, root, p, i, q, sh.owner[p'].page, v);
    }
  }

  /** Writing a word changes exactly the walks that use it. */
  lemma PutWalk(mem: Memory, root: Page, sh: Shape, p: Page, i: bv64, e: bv64, v: bv64)
    requires Tree(mem, root, sh) && p in sh.level && Tree(Put(mem, p, i, e), root, sh)
    requires sh.level[p] == 3 || (sh.level[p] == 2 && IsLarge(e))
    requires IsPresent(e)
    ensures Translate(Put(mem, p, i, e), root, v) ==
            if On(sh, root, p, v) && Index(v, sh.level[p]) == i
            then Grant(AllOpen(UsersTo(Put(mem, p, i, e), sh, root, p)),
                       if sh.level[p] == 3 then PageLeaf(e, v) else BlockLeaf(e, v))
            else Translate(mem, root, v)
  {
    hide Index, IsFrame, IsPresent, IsLarge, PageLeaf, BlockLeaf, Grant, AllOpen, UsersTo, Walk, Tree, On, ShapeOk, Put,
         SameTables;
    TreeShape(mem, root, sh, p);
    OnRoot(sh, root, v);
    if On(sh, root, p, v) && Index(v, sh.level[p]) == i {
      WalkOn(Put(mem, p, i, e), root, sh, p, v);
      PutWord(mem, p, i, e, p, i);
      LeafWalk(Put(mem, p, i, e), p, sh.level[p], v);
    } else {
      PutSame(mem, sh, p, i, e);
      WalkFrame(mem, Put(mem, p, i, e), root, sh, root, v, p, i);
    }
  }

  lemma LeafWalk(mem: Memory, p: Page, level: int, v: bv64)
    requires 2 <= level <= 3
    ensures var e := Word(mem, p, Index(v, level));
            IsPresent(e) && (level == 3 || IsLarge(e)) ==>
            Walk(mem, p, level, v) == if level == 3 then PageLeaf(e, v) else BlockLeaf(e, v)
  {
    hide Index, IsPresent, IsLarge, Word, PageLeaf, BlockLeaf, Narrow, HwAddress;
  }

  // ---------------------------------------------------------------- updates and ways

  /** The tables down to one do not depend on words at its level or below. */
  lemma {:induction false} UsersFrame(mem: Memory, mem': Memory, root: Page, sh: Shape, p: Page, i: bv64, q: Page)
    requires ShapeOk(sh, root) && q in sh.level && p in sh.level && sh.level[q] <= sh.level[p]
    requires SameTables(mem, mem', sh, p, i)
    ensures UsersTo(mem', sh, root, q) == UsersTo(mem, sh, root, q)
    decreases sh.level[q]
  {
    hide IsUser, IsFrame, SameTables, Word;
    if q != root {
      assert HasOwner(sh, q);
      UsersFrame(mem, mem', root, sh, p, i, sh.owner[q].page);
      SameWord(mem, mem', sh, p, i, sh.owner[q].page, sh.owner[q].index);
    }
  }

  lemma {:induction false} UsersGrown(mem: Memory, root: Page, sh: Shape, p: Page, i: bv64, q: Page, p': Page)
    requires ShapeOk(sh, root) && p in sh.level && q !in sh.level && p' in sh.level && ShapeOk(Grown(sh, p, i, q), root)
    ensures p' in Grown(sh, p, i, q).level
    ensures UsersTo(mem, Grown(sh, p, i, q), root, p') == UsersTo(mem, sh, root, p')
    decreases sh.level[p']
  {
    hide IsUser, IsFrame, Grown, Word;
    GrownAt(sh, p, i, q, p');
    if p' != root {
      assert HasOwner(sh, p') && HasOwner(Grown(sh, p, i, q), p');
      GrownAt(sh, p, i, q, sh.owner[p'].page);
      UsersGrown(mem, root, sh, p, i, q, sh.owner[p'].page);
    }
  }

  /** A way that does not use a word does not depend on it. */
  lemma {:induction false} WayFrame(mem: Memory, mem': Memory, root: Page, sh: Shape, q: Page, v: bv64, p: Page,
                                    i: bv64)
    requires Tree(mem, root, sh) && q in sh.level && On(sh, root, q, v) && p in sh.level && 0 <= sh.level[q] <= 3
    requires SameTables(mem, mem', sh, p, i)
    requires sh.level[p] == 3 || !(On(sh, root, p, v) && Index(v, sh.level[p]) == i)
    ensures WayFrom(mem', q, sh.level[q], v) == WayFrom(mem, q, sh.level[q], v)
    decreases 3 - sh.level[q]
  {
    hide Index, IsPresent, IsLarge, HwAddress, EntryPaddr, SameTables, Word, Tree, ShapeOk, On, IsUser, WayFrom;
    TreeShape(mem, root, sh, q);
    WayStep(mem, q, sh.level[q], v);
    WayStep(mem', q, sh.level[q], v);
    if sh.level[q] < 3 {
      var j := Index(v, sh.level[q]);
      var e := Word(mem, q, j);
      SameWord(mem, mem', sh, p, i, q, j);
      if e != 0 && !(sh.level[q] == 2 && IsLarge(e)) {
        NextOnWay(mem, root, sh, q, v);
        WayFrame(mem, mem', root, sh, Page(EntryPaddr(e)), v, p, i);
      }
    }
  }

  /** Where a way goes on from a table. */
  lemma NextOnWay(mem: Memory, root: Page, sh: Shape, q: Page, v: bv64)
    requires Tree(mem, root, sh) && q in sh.level && On(sh, root, q, v) && 0 <= sh.level[q] < 3
    requires var e := Word(mem, q, Index(v, sh.level[q])); e != 0 && !(sh.level[q] == 2 && IsLarge(e))
    ensures var q' := Page(EntryPaddr(Word(mem, q, Index(v, sh.level[q]))));
            && q' in sh.level && sh.level[q'] == sh.level[q] + 1 && On(sh, root, q', v)
  {
    hide Index, IsFrame, IsPresent, IsLarge, EntryPaddr, HwAddress, Word, Permits;
    IndexInTable(v, sh.level[q]);
    assert WordOk(mem, sh, q, Index(v, sh.level[q]));
  }

  /** Linking a table in adds it to exactly the ways that come by the word. */
  lemma WayLinked(mem: Memory, root: Page, sh: Shape, p: Page, i: bv64, q: Page, e: bv64, v: bv64)
    requires Tree(mem, root, sh) && p in sh.level && 0 <= sh.level[p] < 3 && i < 512 && Word(mem, p, i) == 0
    requires q !in sh.level && IsFrame(q.addr) && RefersTo(e, q)
    ensures var (w, w') := (WayOf(mem, root, v), WayOf(Linked(mem, p, i, q, e), root, v));
            if On(sh, root, p, v) && Index(v, sh.level[p]) == i
            then |w.users| == sh.level[p] && !w.large && w' == Way(w.users + [IsUser(e)], false)
            else w' == w
  {
    hide Index, IsFrame, RefersTo, Word, Linked, Grown, ShapeOk, On, Tree, SameTables, IsUser, UsersTo, WayFrom;
    TreeShape(mem, root, sh, p);
    OnRoot(sh, root, v);
    LinkedSame(mem, sh, p, i, q, e);
    if On(sh, root, p, v) && Index(v, sh.level[p]) == i {
      WayOn(mem, root, sh, p, v);
      WayEnds(mem, p, sh.level[p], v);
      UsersFrame(mem, Linked(mem, p, i, q, e), root, sh, p, i, p);
      LinkedWay(mem, root, sh, p, i, q, e, v);
    } else {
      WayFrame(mem, Linked(mem, p, i, q, e), root, sh, root, v, p, i);
    }
  }

  lemma WayEnds(mem: Memory, p: Page, level: int, v: bv64)
    requires 0 <= level <= 3 && (level < 3 ==> Word(mem, p, Index(v, level)) == 0)
    ensures WayFrom(mem, p, level, v) == Way([], false)
  {
  }

  lemma LinkedWay(mem: Memory, root: Page, sh: Shape, p: Page, i: bv64, q: Page, e: bv64, v: bv64)
    requires Tree(mem, root, sh) && p in sh.level && 0 <= sh.level[p] < 3 && i < 512 && Word(mem, p, i) == 0
    requires q !in sh.level && IsFrame(q.addr) && RefersTo(e, q) && ShapeOk(sh, root)
    requires On(sh, root, p, v) && Index(v, sh.level[p]) == i
    ensures var mem' := Linked(mem, p, i, q, e);
            WayOf(mem', root, v) == Way(UsersTo(mem', sh, root, p) + [IsUser(e)], false)
  {
    hide Index, IsFrame, RefersTo, Word, Linked, Grown, ShapeOk, On, Tree, IsUser, UsersTo, WayFrom;
    var (mem', sh') := (Linked(mem, p, i, q, e), Grown(sh, p, i, q));
    GrowTree(mem, root, sh, p, i, q, e);
    GrownAt(sh, p, i, q, p);
    GrownAt(sh, p, i, q, q);
    TreeShape(mem', root, sh', p);
    OnGrown(sh, root, p, i, q, p, v);
    UsersGrown(mem', root, sh, p, i, q, p);
    WayOn(mem', root, sh', p, v);
    LinkedWord(mem, p, i, q, e, p, i);
    LinkedWord(mem, p, i, q, e, q, if sh.level[p] < 2 then Index(v, sh.level[p] + 1) else 0);
    if sh.level[p] < 2 {
      WayEnds(mem', q, sh.level[p] + 1, v);
    } else {
      WayEnds(mem', q, 3, v);
    }
    WayLink(mem', p, sh.level[p], v, q);
  }

  lemma WayLink(mem: Memory, p: Page, level: int, v: bv64, q: Page)
    requires 0 <= level < 3 && RefersTo(Word(mem, p, Index(v, level)), q)
    requires WayFrom(mem, q, level + 1, v) == Way([], false)
    ensures WayFrom(mem, p, level, v) == Way([IsUser(Word(mem, p, Index(v, level)))], false)
  {
    hide Index, IsPresent, IsLarge, HwAddress, EntryPaddr, Word, IsUser, Permits;
  }

  /** A leaf ends exactly the ways that use it, if it is a large one. */
  lemma WayPut(mem: Memory, root: Page, sh: Shape, p: Page, i: bv64, e: bv64, v: bv64)
    requires Tree(mem, root, sh) && p in sh.level && Tree(Put(mem, p, i, e), root, sh)
    requires sh.level[p] == 3 || (sh.level[p] == 2 && IsLarge(e) && (Word(mem, p, i) == 0 || IsLarge(Word(mem, p, i))))
    ensures var (w, w') := (WayOf(mem, root, v), WayOf(Put(mem, p, i, e), root, v));
            w' == if sh.level[p] == 2 && On(sh, root, p, v) && Index(v, 2) == i then Way(w.users, true) else w
    ensures UsersTo(Put(mem, p, i, e), sh, root, p) == UsersTo(mem, sh, root, p)
    ensures On(sh, root, p, v) && (sh.level[p] == 3 || Index(v, 2) == i) ==>
              WayOf(mem, root, v).users == UsersTo(mem, sh, root, p)
  {
    hide Index, IsFrame, Word, Put, ShapeOk, On, Tree, SameTables, IsUser, UsersTo, WayFrom, IsLarge;
    TreeShape(mem, root, sh, p);
    OnRoot(sh, root, v);
    PutSame(mem, sh, p, i, e);
    UsersFrame(mem, Put(mem, p, i, e), root, sh, p, i, p);
    PutWord(mem, p, i, e, p, i);
    if sh.level[p] == 2 && On(sh, root, p, v) && Index(v, 2) == i {
      WayOn(mem, root, sh, p, v);
      WayOn(Put(mem, p, i, e), root, sh, p, v);
      WayAtBlock(mem, p, v);
      WayAtBlock(Put(mem, p, i, e), p, v);
    } else {
      WayFrame(mem, Put(mem, p, i, e), root, sh, root, v, p, i);
      if sh.level[p] == 3 && On(sh, root, p, v) {
        WayOn(mem, root, sh, p, v);
        WayEnds(mem, p, 3, v);
      }
    }
  }

  lemma PutSame(mem: Memory, sh: Shape, p: Page, i: bv64, e: bv64)
    ensures SameTables(mem, Put(mem, p, i, e), sh, p, i)
  {
    hide Word, Put;
    forall p', i' | p' in sh.level && !(p' == p && i' == i)
      ensures Word(Put(mem, p, i, e), p', i') == Word(mem, p', i')
    {
      PutWord(mem, p, i, e, p', i');
    }
  }

  lemma WayAtBlock(mem: Memory, p: Page, v: bv64)
    requires var e := Word(mem, p, Index(v, 2)); e == 0 || IsLarge(e)
    ensures WayFrom(mem, p, 2, v) == Way([], IsLarge(Word(mem, p, Index(v, 2))))
  {
    hide Index, IsLarge, Word;
    ZeroWord();
  }

  // ---------------------------------------------------------------- how ways change

  /** How many of the first three indices two addresses share. */
  function Common(v: bv64, w: bv64): (n: nat)
    ensures n <= 3
  {
    if Index(v, 0) != Index(w, 0) then 0 else if Index(v, 1) != Index(w, 1) then 1
    else if Index(v, 2) != Index(w, 2) then 2 else 3
  }

  lemma CommonAt(v: bv64, w: bv64, level: int)
    requires 0 <= level < Common(v, w)
    ensures Index(v, level) == Index(w, level)
  {
    hide Index;
  }

  function Repeat(u: bool, n: nat): (r: seq<bool>)
    ensures |r| == n
  {
    if n == 0 then [] else Repeat(u, n - 1) + [u]
  }

  lemma {:induction false} AllOpenRepeat(users: seq<bool>, u: bool, n: nat)
    ensures AllOpen(users + Repeat(u, n)) <==> AllOpen(users) && (u || n == 0)
  {
    hide AllOpen;
    if n == 0 {
      assert users + [] == users;
    } else {
      AllOpenRepeat(users, u, n - 1);
      Assoc(users, Repeat(u, n - 1), [u]);
      AllOpenPush(users + Repeat(u, n - 1), u);
    }
  }

  /** The way `w` after `n` tables were made where `way` ends: if it is the same and shares more indices than it has
      tables, it gets those of the tables for which they share the index. */
  function Extended(w: Way, way: Way, common: nat, n: nat, u: bool): Way {
    var d := |way.users|;
    if n == 0 || common <= d || w != way then w
    else Way(way.users + Repeat(u, if common <= d + n then common - d else n), false)
  }

  /** Addresses that share the indices on a way have it in common. */
  lemma {:induction false} SharedFrom(mem: Memory, p: Page, level: int, v: bv64, x: bv64)
    requires 0 <= level <= 3 && level + |WayFrom(mem, p, level, v).users| < Common(x, v)
    ensures WayFrom(mem, p, level, x) == WayFrom(mem, p, level, v)
    decreases 3 - level
  {
    hide Index, IsLarge, EntryPaddr, Word, IsUser, WayFrom, Common;
    WayStep(mem, p, level, v);
    WayStep(mem, p, level, x);
    if level < 3 {
      CommonAt(x, v, level);
      var e := Word(mem, p, Index(v, level));
      if e != 0 && !(level == 2 && IsLarge(e)) {
        SharedFrom(mem, Page(EntryPaddr(e)), level + 1, v, x);
      }
    }
  }

  lemma SharedWay(mem: Memory, root: Page, v: bv64, x: bv64)
    ensures |WayOf(mem, root, v).users| < Common(x, v) ==> WayOf(mem, root, x) == WayOf(mem, root, v)
  {
    hide WayFrom, Common;
    if |WayOf(mem, root, v).users| < Common(x, v) {
      SharedFrom(mem, root, 0, v, x);
    }
  }

  /** All of its way is shared by the addresses of a block. */
  lemma {:induction false} BlockFrom(mem: Memory, p: Page, level: int, v: bv64, x: bv64)
    requires 0 <= level <= 3 && Common(x, v) == 3
    ensures WayFrom(mem, p, level, x) == WayFrom(mem, p, level, v)
    decreases 3 - level
  {
    hide Index, IsLarge, EntryPaddr, Word, IsUser, WayFrom, Common;
    WayStep(mem, p, level, v);
    WayStep(mem, p, level, x);
    if level < 3 {
      CommonAt(x, v, level);
      var e := Word(mem, p, Index(v, level));
      if e != 0 && !(level == 2 && IsLarge(e)) {
        BlockFrom(mem, Page(EntryPaddr(e)), level + 1, v, x);
      }
    }
  }

  /** Which addresses come by a word on the way of another. */
  lemma CommonOn(sh: Shape, root: Page, p: Page, v: bv64, x: bv64)
    requires ShapeOk(sh, root) && p in sh.level && 0 <= sh.level[p] < 3 && On(sh, root, p, v)
    ensures On(sh, root, p, x) && Index(x, sh.level[p]) == Index(v, sh.level[p]) <==> Common(x, v) > sh.level[p]
  {
    hide Index, ShapeOk, On;
    OnSame(sh, root, p, x, v);
  }

  /** Where something is mapped the way is complete. */
  lemma {:induction false} WayComplete(mem: Memory, root: Page, sh: Shape, q: Page, v: bv64)
    requires Tree(mem, root, sh) && q in sh.level && On(sh, root, q, v) && 0 <= sh.level[q] <= 3
    requires Walk(mem, q, sh.level[q], v).Some?
    ensures var w := WayFrom(mem, q, sh.level[q], v); w.large || |w.users| == 3 - sh.level[q]
    decreases 3 - sh.level[q]
  {
    hide Index, IsPresent, IsLarge, HwAddress, EntryPaddr, Word, Tree, ShapeOk, On, IsUser, PageLeaf, LargeLeaf, Narrow,
         WayFrom;
    ZeroWord();
    WayStep(mem, q, sh.level[q], v);
    if sh.level[q] < 3 {
      var e := Word(mem, q, Index(v, sh.level[q]));
      if !(sh.level[q] == 2 && IsLarge(e)) {
        NextOnWay(mem, root, sh, q, v);
        SameNext(mem, root, sh, q, v);
        NarrowNone(e);
        WayComplete(mem, root, sh, Page(EntryPaddr(e)), v);
      }
    }
  }

  lemma NarrowNone(e: bv64)
    ensures Narrow(e, None) == None
  {
  }

  lemma SameNext(mem: Memory, root: Page, sh: Shape, q: Page, v: bv64)
    requires Tree(mem, root, sh) && q in sh.level && 0 <= sh.level[q] < 3
    requires var e := Word(mem, q, Index(v, sh.level[q])); e != 0 && !(sh.level[q] == 2 && IsLarge(e))
    ensures var e := Word(mem, q, Index(v, sh.level[q])); !IsLarge(e) && EntryPaddr(e) == HwAddress(e)
  {
    hide Index, IsFrame, IsPresent, IsLarge, EntryPaddr, HwAddress, Word, Permits;
    IndexInTable(v, sh.level[q]);
    assert WordOk(mem, sh, q, Index(v, sh.level[q]));
  }
}
