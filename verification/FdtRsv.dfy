/** The memory reservations of a blob: 16-byte entries up to one of no size. */
module FdtRsv {
  import opened Bytes
  import opened Arith

  const RESERVE_ENTRY_SIZE: int := 16

  datatype Reservation = Reservation(address: nat, size: nat)

  predicate IsReservation(r: Reservation) {
    r.address < U64 && r.size < U64
  }

  /** The big-endian bytes of a 64-bit number. */
  function Be64(x: nat): (s: seq<byte>)
    requires x < U64
    ensures |s| == 8
  {
    Be32(x / U32) + Be32(x % U32)
  }

  function U64At(s: seq<byte>, i: nat): (x: nat)
    requires i + 8 <= |s|
  {
    U32At(s, i) * U32 + U32At(s, i + 4)
  }

  function EntryAt(s: seq<byte>, off: nat): Reservation
    requires off + RESERVE_ENTRY_SIZE <= |s|
  {
    Reservation(U64At(s, off), U64At(s, off + 8))
  }

  /** The entries from `off` on, if there is an end to them. */
  function ReservationsIn(s: seq<byte>, off: nat): (r: Option<seq<Reservation>>)
    decreases |s| - off
  {
    if off + RESERVE_ENTRY_SIZE > |s| then None
    else if U64At(s, off + 8) == 0 then Some([])
    else match ReservationsIn(s, off + RESERVE_ENTRY_SIZE)
      case None => None
      case Some(rest) => Some([EntryAt(s, off)] + rest)
  }

  /** Counts the entries in front of the end. */
  method NumMemRsv(s: seq<byte>, off: nat) returns (n: nat)
    requires ReservationsIn(s, off).Some?
    ensures n == |ReservationsIn(s, off).value|
  {
    hide U64At;
    n := 0;
    while U64At(s, off + n * RESERVE_ENTRY_SIZE + 8) != 0
      invariant off + (n + 1) * RESERVE_ENTRY_SIZE <= |s| && ReservationsIn(s, off + n * RESERVE_ENTRY_SIZE).Some?
      invariant |ReservationsIn(s, off).value| == n + |ReservationsIn(s, off + n * RESERVE_ENTRY_SIZE).value|
      decreases |s| - n
    {
      n := n + 1;
    }
  }

  /** Reads the `n`-th entry. */
  method GetMemRsv(s: seq<byte>, off: nat, n: nat) returns (address: nat, size: nat)
    requires ReservationsIn(s, off).Some? && n < |ReservationsIn(s, off).value|
    ensures Reservation(address, size) == ReservationsIn(s, off).value[n]
  {
    EntryIn(s, off, n);
    return U64At(s, off + n * RESERVE_ENTRY_SIZE), U64At(s, off + n * RESERVE_ENTRY_SIZE + 8);
  }

  lemma {:induction false} EntryIn(s: seq<byte>, off: nat, n: nat)
    requires ReservationsIn(s, off).Some? && n < |ReservationsIn(s, off).value|
    ensures off + (n + 1) * RESERVE_ENTRY_SIZE <= |s|
    ensures ReservationsIn(s, off).value[n] == EntryAt(s, off + n * RESERVE_ENTRY_SIZE)
    decreases n
  {
    hide EntryAt, U64At;
    if n > 0 {
      EntryIn(s, off + RESERVE_ENTRY_SIZE, n - 1);
    }
  }

  // ---------------------------------------------------------------- writing

  function EntryBytes(r: Reservation): (s: seq<byte>)
    requires IsReservation(r)
    ensures |s| == RESERVE_ENTRY_SIZE
  {
    Be64(r.address) + Be64(r.size)
  }

  predicate AreReservations(rs: seq<Reservation>) {
    forall i | 0 <= i < |rs| :: IsReservation(rs[i])
  }

  function EntriesBytes(rs: seq<Reservation>): (s: seq<byte>)
    requires AreReservations(rs)
    ensures |s| == RESERVE_ENTRY_SIZE * |rs|
  {
    if rs == [] then [] else EntriesBytes(rs[..|rs| - 1]) + EntryBytes(rs[|rs| - 1])
  }

  /** The entries in front of the first one of no size. */
  function BeforeEnd(rs: seq<Reservation>): (r: seq<Reservation>)
    ensures r <= rs
    ensures r == rs <==> forall i | 0 <= i < |rs| :: rs[i].size != 0
  {
    if rs == [] || rs[0].size == 0 then [] else [rs[0]] + BeforeEnd(rs[1..])
  }

  lemma Be64At(s: seq<byte>, i: nat, x: nat)
    requires x < U64 && i + 8 <= |s| && s[i..i + 8] == Be64(x)
    ensures U64At(s, i) == x
  {
    hide Be32, U32At;
    var (a, b) := (Be32(x / U32), Be32(x % U32));
    U32Slice(s, i, i + 8, 0);
    U32Slice(s, i, i + 8, 4);
    FirstCell(a, b);
    assert x == x / U32 * U32 + x % U32;
  }

  lemma FirstCell(a: seq<byte>, b: seq<byte>)
    requires |a| == 4 && |b| == 4
    ensures U32At(a + b, 0) == U32At(a, 0) && U32At(a + b, 4) == U32At(b, 0)
  {
  }

  lemma EntryRead(s: seq<byte>, off: nat, r: Reservation)
    requires IsReservation(r) && off + RESERVE_ENTRY_SIZE <= |s| && s[off..off + RESERVE_ENTRY_SIZE] == EntryBytes(r)
    ensures EntryAt(s, off) == r && U64At(s, off + 8) == r.size
  {
    hide Be64, U64At;
    SliceSlice(s, off, off + 16, 0, 8);
    SliceSlice(s, off, off + 16, 8, 16);
    assert EntryBytes(r)[0..8] == Be64(r.address) && EntryBytes(r)[8..16] == Be64(r.size);
    Be64At(s, off, r.address);
    Be64At(s, off + 8, r.size);
  }

  lemma {:induction false} EntriesHead(rs: seq<Reservation>)
    requires AreReservations(rs) && rs != []
    ensures EntriesBytes(rs) == EntryBytes(rs[0]) + EntriesBytes(rs[1..])
  {
    hide EntryBytes;
    if |rs| == 1 {
      assert rs[..0] == [] && rs[1..] == [];
    } else {
      var k := |rs| - 1;
      EntriesHead(rs[..k]);
      assert rs[..k][1..] == rs[1..][..k - 1] && rs[1..][k - 1] == rs[k];
    }
  }

  /** What was written is read back, up to the first entry of no size. */
  lemma {:induction false} EntriesRead(s: seq<byte>, off: nat, rs: seq<Reservation>)
    requires AreReservations(rs) && off + RESERVE_ENTRY_SIZE * |rs| <= |s|
    requires s[off..off + RESERVE_ENTRY_SIZE * |rs|] == EntriesBytes(rs)
    requires exists i :: 0 <= i < |rs| && rs[i].size == 0
    ensures ReservationsIn(s, off) == Some(BeforeEnd(rs))
    decreases |rs|
  {
    hide EntryBytes, EntryAt, U64At;
    var (e, n) := (EntryBytes(rs[0]), RESERVE_ENTRY_SIZE * |rs|);
    EntriesHead(rs);
    SliceEnds(s, off, off + 16, off + n);
    assert s[off..off + n][..16] == e && s[off..off + n][16..] == EntriesBytes(rs[1..]);
    EntryRead(s, off, rs[0]);
    EntryHas(s, off);
    if rs[0].size != 0 {
      var i :| 0 <= i < |rs| && rs[i].size == 0;
      assert rs[1..][i - 1] == rs[i];
      EntriesRead(s, off + 16, rs[1..]);
    }
  }

  lemma EntryHas(s: seq<byte>, off: nat)
    requires off + RESERVE_ENTRY_SIZE <= |s|
    ensures EntryAt(s, off).size == U64At(s, off + 8)
  {
  }

  /** Behind a reservation of no size the others are not read back. */
  lemma SizelessReservation()
    ensures BeforeEnd([Reservation(0x1000, 0), Reservation(0x2000, 0x1000)]) == []
    ensures BeforeEnd([Reservation(0x2000, 0x1000), Reservation(0x1000, 0)]) == [Reservation(0x2000, 0x1000)]
  {
    var rs := [Reservation(0x2000, 0x1000), Reservation(0x1000, 0)];
    assert rs[1..] == [Reservation(0x1000, 0)];
  }

  lemma BeforeLast(rs: seq<Reservation>, last: Reservation)
    requires last.size == 0
    ensures BeforeEnd(rs + [last]) == BeforeEnd(rs)
  {
    if rs != [] && rs[0].size != 0 {
      assert (rs + [last])[1..] == rs[1..] + [last];
      BeforeLast(rs[1..], last);
    }
  }
}
