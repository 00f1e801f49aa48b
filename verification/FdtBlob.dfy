/** A device tree blob in memory: header fields over a byte buffer. */
module FdtBlob {
  import opened Bytes
  import opened FdtFormat
  import opened FdtTree
  import opened FdtRo
  import opened FdtRsv

  const FDT_MAGIC: int := 0xd00dfeed
  const FDT_SW_MAGIC: int := 0xffff_ffff - FDT_MAGIC
  const FDT_FIRST_SUPPORTED_VERSION: int := 16
  const FDT_LAST_SUPPORTED_VERSION: int := 17
  const HEADER_SIZE: int := 40

  class Fdt {
    const buf: array<byte>
    var magic: int
    var totalsize: int
    var offDtStruct: int
    var offDtStrings: int
    var offMemRsvmap: int
    var version: int
    var lastCompVersion: int
    var sizeDtStrings: int
    var sizeDtStruct: int

    constructor (buf: array<byte>)
      ensures this.buf == buf
    {
      this.buf := buf;
      magic, totalsize, version, lastCompVersion := 0, 0, 0, 0;
      offDtStruct, offDtStrings, offMemRsvmap, sizeDtStrings, sizeDtStruct := 0, 0, 0, 0, 0;
    }

    /** The blocks follow each other inside the buffer: reservations, structure, strings. */
    predicate Laid()
      reads this
    {
      && HEADER_SIZE <= offMemRsvmap && offMemRsvmap + RESERVE_ENTRY_SIZE <= offDtStruct
      && 0 <= sizeDtStruct && offDtStruct + sizeDtStruct <= offDtStrings
      && 0 <= sizeDtStrings && offDtStrings + sizeDtStrings <= totalsize
      && totalsize <= buf.Length < U32 / 2
    }

    /** The structure block. */
    function Struct(): (s: seq<byte>)
      requires Laid()
      reads this, buf
      ensures |s| == sizeDtStruct
    {
      Window(buf[..], offDtStruct, sizeDtStruct)
    }

    /** The strings block. */
    function Strings(): (s: seq<byte>)
      requires Laid()
      reads this, buf
      ensures |s| == sizeDtStrings
    {
      Window(buf[..], offDtStrings, sizeDtStrings)
    }

    /** What lies in front of the structure block, the reservations among it, and behind the blob. */
    function Outside(): (r: (seq<byte>, seq<byte>))
      requires Laid()
      reads this, buf
    {
      (Window(buf[..], 0, offDtStruct), Window(buf[..], totalsize, buf.Length - totalsize))
    }

    /** The memory reservations, if there is an end to them. */
    function Reservations(): Option<seq<Reservation>>
      requires Laid()
      reads this, buf
    {
      ReservationsIn(Outside().0, offMemRsvmap)
    }

    predicate Complete()
      reads this
    {
      Laid() && magic == FDT_MAGIC && version == 17 && lastCompVersion <= 17
    }

    /** A complete version-17 blob whose structure block reads whole, whose property names are all
        found, and whose tokens are those of one tree. */
    predicate WellFormed()
      reads this, buf
    {
      && Complete() && Block(Struct()) && Named(Toks(Struct()), Strings())
      && Parse(Meaning(Toks(Struct()), Strings())).Some?
    }

    /** The tree the blob stands for. */
    function Root(): (t: Node)
      requires WellFormed()
      reads this, buf
      ensures Denotes(Struct(), Strings(), t)
    {
      Parse(Meaning(Toks(Struct()), Strings())).value
    }

    /** fdt_check_header: bad magic, bad version and bad state each have their one cause. */
    function CheckHeader(): (r: int)
      reads this
      ensures r == -9 <==> magic != 0xd00d_feed && magic != 0x2ff2_0112
      ensures r == -10 <==> magic == 0xd00d_feed && !(version >= 16 && lastCompVersion <= 17)
      ensures r == -7 <==> magic == 0x2ff2_0112 && sizeDtStruct == 0
      ensures r == 0 || r == -7 || r == -9 || r == -10
    {
      if magic == FDT_MAGIC then
        if version < FDT_FIRST_SUPPORTED_VERSION || lastCompVersion > FDT_LAST_SUPPORTED_VERSION
        then -ERR_BADVERSION else 0
      else if magic == FDT_SW_MAGIC then
        if sizeDtStruct == 0 then -ERR_BADSTATE else 0
      else -ERR_BADMAGIC
    }

    /** fdt_offset_ptr, with its unsigned 32-bit arithmetic. */
    predicate OffsetPtr(offset: int, len: int)
      reads this
    {
      var (abs, uoff) := ((offset + offDtStruct) % U32, offset % U32);
      && !(abs < uoff || (abs + len) % U32 < abs || (abs + len) % U32 > totalsize)
      && (version >= 17 ==> !((uoff + len) % U32 < uoff || (uoff + len) % U32 > sizeDtStruct))
    }
  }

  /** On a laid-out version-17 blob the pointer check admits exactly the bytes of the structure
      block: none of its additions can wrap into a wrong answer. */
  lemma OffsetPtrIsWindow(fdt: Fdt, offset: int, len: int)
    requires fdt.Laid() && fdt.version == 17 && -U32 / 2 <= offset < U32 / 2 && 0 <= len < U32
    ensures fdt.OffsetPtr(offset, len) <==> InWindow(fdt.Struct(), offset, len)
  {
    if offset < 0 {
      assert offset % U32 == offset + U32;
    }
  }

  /** A complete blob whose blocks denote a tree is well formed, with that tree. */
  lemma RootIs(fdt: Fdt, t: Node)
    requires fdt.Complete() && Denotes(fdt.Struct(), fdt.Strings(), t)
    ensures fdt.WellFormed() && fdt.Root() == t
  {
    hide Walk, IsBlock, Toks, Meaning, Flatten, Parse;
    ParseIff(Meaning(Toks(fdt.Struct()), fdt.Strings()), t);
  }
}
