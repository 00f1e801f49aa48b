/** The address cache: a table of 128 entries searched by linear probing, as a map from IP address to
    hardware address. The IP address zero marks an empty entry. */
module ArpCache {
  import opened Bytes
  import opened Arith

  const SIZE: nat := 128

  datatype Entry = Entry(ip: nat, mac: seq<byte>)

  /** Multiplicative hashing: the top 7 bits of a 32-bit product. */
  function Hash(ip: nat): (h: nat)
    ensures h < SIZE
  {
    ip * 2654435761 % U32 / 0x200_0000
  }

  /** The `count`-th entry looked at. */
  function Probe(hash: nat, count: nat): (i: nat)
    ensures i < SIZE
  {
    (hash + count) % SIZE
  }

  /** The probes from any start visit every entry exactly once. */
  lemma ProbeVisits(hash: nat, i: nat) returns (count: nat)
    requires i < SIZE
    ensures count < SIZE && Probe(hash, count) == i
    ensures forall c: nat | c < SIZE && Probe(hash, c) == i :: c == count
  {
    var k := ModVisits(hash, SIZE, i);
    count := k - hash;
    forall c: nat | c < SIZE && c != count ensures Probe(hash, c) != i {
      if c < count {
        ProbesDiffer(hash, c, count);
      } else {
        ProbesDiffer(hash, count, c);
      }
    }
  }

  lemma ProbesDiffer(hash: nat, c: nat, d: nat)
    requires c < d < SIZE
    ensures Probe(hash, c) != Probe(hash, d)
  {
    ModDiffers(hash + c, hash + d, SIZE);
  }

  /** No address has two entries. */
  predicate Unique(es: seq<Entry>) {
    forall i, j | 0 <= i < j < |es| && es[i].ip != 0 :: es[i].ip != es[j].ip
  }

  /** What the cache knows. */
  function Known(es: seq<Entry>): map<nat, seq<byte>>
    requires Unique(es)
  {
    map i | 0 <= i < |es| && es[i].ip != 0 :: es[i].ip := es[i].mac
  }

  lemma KnownAt(es: seq<Entry>, i: nat)
    requires Unique(es) && i < |es| && es[i].ip != 0
    ensures es[i].ip in Known(es) && Known(es)[es[i].ip] == es[i].mac
  {
  }

  lemma KnownIff(es: seq<Entry>, ip: nat)
    requires Unique(es)
    ensures ip in Known(es) <==> ip != 0 && exists i :: 0 <= i < |es| && es[i].ip == ip
  {
  }

  /** Two tables know the same if they have the same entries, in whatever order. */
  lemma KnownFrom(es: seq<Entry>, es': seq<Entry>, ip: nat, mac: seq<byte>)
    requires Unique(es) && Unique(es') && ip != 0
    requires Entry(ip, mac) in es' && forall e: Entry | e.ip != ip && e.ip != 0 :: e in es' <==> e in es
    ensures Known(es') == Known(es)[ip := mac]
  {
    hide Known;
    var (m, m') := (Known(es)[ip := mac], Known(es'));
    forall k ensures k in m' <==> k in m {
      KnownIff(es, k);
      KnownIff(es', k);
      if i :| 0 <= i < |es| && es[i].ip == k && k != ip && k != 0 {
        assert es[i] in es';
      }
      if i :| 0 <= i < |es'| && es'[i].ip == k && k != ip && k != 0 {
        assert es'[i] in es;
      }
    }
    forall k | k in m' ensures m'[k] == m[k] {
      KnownIff(es', k);
      var i :| 0 <= i < |es'| && es'[i].ip == k;
      KnownAt(es', i);
      if k == ip {
        var j :| 0 <= j < |es'| && es'[j] == Entry(ip, mac);
        KnownAt(es', j);
      } else {
        assert es'[i] in es;
        var j :| 0 <= j < |es| && es[j] == es'[i];
        KnownAt(es, j);
      }
    }
  }

  lemma KnownUpdate(es: seq<Entry>, i: nat, ip: nat, mac: seq<byte>)
    requires Unique(es) && i < |es|
    requires es[i].ip == ip || (es[i].ip == 0 && forall j | 0 <= j < |es| :: es[j].ip != ip)
    ensures var es' := es[i := Entry(ip, mac)];
            Unique(es') && Known(es') == if ip == 0 then Known(es) else Known(es)[ip := mac]
  {
    var es' := es[i := Entry(ip, mac)];
    assert forall j | 0 <= j < |es| :: es'[j] == if j == i then Entry(ip, mac) else es[j];
    if ip != 0 {
      assert es'[i] == Entry(ip, mac);
      forall e: Entry | e.ip != ip && e.ip != 0 ensures e in es' <==> e in es {
        if e in es {
          var j :| 0 <= j < |es| && es[j] == e;
          assert es'[j] == e;
        }
      }
      KnownFrom(es, es', ip, mac);
    }
  }

  /** A table knows as many addresses as it has entries exactly if none of them is empty. */
  lemma {:induction false} FullKnows(es: seq<Entry>)
    requires Unique(es)
    ensures |Known(es)| <= |es|
    ensures |Known(es)| == |es| <==> forall i | 0 <= i < |es| :: es[i].ip != 0
  {
    hide Known;
    if es == [] {
      NothingKnown();
    } else {
      var (last, rest) := (es[|es| - 1], es[..|es| - 1]);
      assert es == rest + [last];
      FullKnows(rest);
      if last.ip == 0 {
        EmptyKnows(rest, last);
      } else {
        KnownFrom(rest, es, last.ip, last.mac);
        KnownIff(rest, last.ip);
      }
    }
  }

  lemma EmptyKnows(es: seq<Entry>, e: Entry)
    requires Unique(es) && Unique(es + [e]) && e.ip == 0
    ensures Known(es + [e]) == Known(es)
  {
    assert forall i | 0 <= i < |es| :: (es + [e])[i] == es[i];
  }

  lemma NothingKnown()
    ensures Known([]) == map[]
  {
  }

  class Cache {
    const entries: array<Entry>

    ghost predicate Valid()
      reads this, entries
    {
      entries.Length == SIZE && Unique(entries[..])
    }

    ghost function Contents(): map<nat, seq<byte>>
      requires Valid()
      reads this, entries
    {
      Known(entries[..])
    }

    constructor ()
      ensures Valid() && fresh(entries) && Contents() == map[]
    {
      entries := new Entry[SIZE](i => Entry(0, [0, 0, 0, 0, 0, 0]));
    }

    /** Looks for an entry with an address, from the place its hash gives. */
    method FindEntry(ip: nat, hash: nat) returns (r: Option<nat>)
      requires entries.Length == SIZE
      ensures r.Some? ==> r.value < SIZE && entries[r.value].ip == ip
      ensures r.None? ==> forall i | 0 <= i < SIZE :: entries[i].ip != ip
    {
      for count := 0 to SIZE
        invariant forall c: nat | c < count :: entries[Probe(hash, c)].ip != ip
      {
        var idx := Probe(hash, count);
        if entries[idx].ip == ip {
          return Some(idx);
        }
      }
      forall i: nat | i < SIZE ensures entries[i].ip != ip {
        var count := ProbeVisits(hash, i);
      }
      return None;
    }

    /** Enters an address, in its own entry or in an empty one. If there is neither, which is so for a
        new address in a full table, the code writes through a null pointer; here `ok` is false. */
    method Insert(ip: nat, mac: seq<byte>) returns (ok: bool)
      requires Valid()
      modifies entries
      ensures Valid() && (ok <==> ip in old(Contents()) || |old(Contents())| < SIZE)
      ensures Contents() == if ok && ip != 0 then old(Contents())[ip := mac] else old(Contents())
      ensures !ok ==> entries[..] == old(entries[..])
    {
      hide Known;
      ghost var es := entries[..];
      FullKnows(es);
      KnownIff(es, ip);
      var entry := FindEntry(ip, Hash(ip));
      if entry.None? {
        entry := FindEntry(0, Hash(ip));
        if entry.None? {
          return false;
        }
      }
      KnownUpdate(es, entry.value, ip, mac);
      entries[entry.value] := Entry(ip, mac);
      assert entries[..] == es[entry.value := Entry(ip, mac)];
      return true;
    }

    /** The hardware address of an address. For the address zero it is the bytes of an empty entry. */
    method Lookup(ip: nat) returns (r: Option<seq<byte>>)
      requires Valid()
      ensures ip != 0 ==> r == if ip in Contents() then Some(Contents()[ip]) else None
      ensures ip == 0 ==> (r.Some? <==> |Contents()| < SIZE) && (r.Some? ==> Entry(0, r.value) in entries[..])
    {
      hide Known;
      FullKnows(entries[..]);
      var entry := FindEntry(ip, Hash(ip));
      if entry.Some? {
        if ip != 0 {
          KnownAt(entries[..], entry.value);
        }
        assert entries[..][entry.value] == entries[entry.value];
        return Some(entries[entry.value].mac);
      }
      NotKnown(entries[..], ip);
      return None;
    }
  }

  /** After the addresses 1 to 128 there is no entry for 129. */
  method InsertTooMany() returns (ok: bool)
    ensures !ok
  {
    hide Known;
    var cache := new Cache();
    var ip := 1;
    while ip <= SIZE
      invariant 1 <= ip <= SIZE + 1 && cache.Valid() && fresh(cache.entries)
      invariant |cache.Contents()| == ip - 1 && forall a | a in cache.Contents() :: a < ip
    {
      ok := cache.Insert(ip, [0, 0, 0, 0, 0, 0]);
      ip := ip + 1;
    }
    ok := cache.Insert(ip, [0, 0, 0, 0, 0, 0]);
  }

  lemma NotKnown(es: seq<Entry>, ip: nat)
    requires Unique(es) && forall i | 0 <= i < |es| :: es[i].ip != ip
    ensures ip !in Known(es)
  {
  }
}
