/**
 The retransmit backlog (src/protocols/raop/packets/PacketFifo.ts): a map that forgets its oldest
 entries.
 */
module PacketFifos {
  import opened Results
  import opened ByteStrings

  type Entry = (nat, Bytes)

  /** The last n elements. */
  function Last<T>(s: seq<T>, n: nat): (r: seq<T>)
    ensures |r| == Min(n, |s|)
  {
    if |s| <= n then s else s[|s| - n..]
  }

  lemma LastOfLast<T>(s: seq<T>, x: T, n: nat)
    ensures Last(Last(s, n) + [x], n) == Last(s + [x], n)
  {
  }

  lemma LastOfTail<T>(s: seq<T>, n: nat)
    requires |s| > n
    ensures Last(s[1..], n) == Last(s, n)
  {
  }

  function Lookup(entries: seq<Entry>, seqno: nat): Option<Bytes> {
    if entries == [] then None
    else if entries[0].0 == seqno then Some(entries[0].1)
    else Lookup(entries[1..], seqno)
  }

  ghost predicate DistinctKeys(entries: seq<Entry>) {
    forall i, j | 0 <= i < j < |entries| :: entries[i].0 != entries[j].0
  }

  lemma {:induction false} LookupIs(entries: seq<Entry>, seqno: nat)
    ensures Lookup(entries, seqno).None? <==> forall e | e in entries :: e.0 != seqno
    ensures DistinctKeys(entries) ==> forall i | 0 <= i < |entries| && entries[i].0 == seqno ::
        Lookup(entries, seqno) == Some(entries[i].1)
  {
    if entries != [] && entries[0].0 != seqno {
      LookupIs(entries[1..], seqno);
      assert DistinctKeys(entries) ==> DistinctKeys(entries[1..]);
      assert forall e | e in entries :: e == entries[0] || e in entries[1..];
      assert forall i | 0 < i < |entries| :: entries[i] == entries[1..][i - 1];
    } else if entries != [] {
      assert entries[0] in entries;
    }
  }

  lemma LookupAt(entries: seq<Entry>, k: nat)
    requires DistinctKeys(entries) && k < |entries|
    ensures Lookup(entries, entries[k].0) == Some(entries[k].1)
  {
    LookupIs(entries, entries[k].0);
  }

  lemma LookupNowhere(entries: seq<Entry>, seqno: nat)
    requires forall k | 0 <= k < |entries| :: entries[k].0 != seqno
    ensures Lookup(entries, seqno).None?
  {
    LookupIs(entries, seqno);
  }

  class PacketFifo {
    const maxSize: nat
    var packets: map<nat, Bytes>
    var order: seq<nat>

    /** The map's keys are those in `order`, each once. */
    ghost predicate Valid()
      reads this
    {
      && |order| <= maxSize && Consistent()
    }

    ghost predicate Consistent()
      reads this
    {
      && (forall i | 0 <= i < |order| :: order[i] in packets)
      && (forall k | k in packets :: k in order)
      && (forall i, j | 0 <= i < j < |order| :: order[i] != order[j])
    }

    /** Keys and packets, oldest first. */
    ghost function Entries(): (r: seq<Entry>)
      requires Consistent()
      reads this
      ensures |r| == |order| && DistinctKeys(r)
    {
      seq(|order|, i requires 0 <= i < |order| reads this requires Consistent() => (order[i], packets[order[i]]))
    }

    constructor (maxSize: nat)
      ensures Valid() && Entries() == [] && this.maxSize == maxSize
    {
      this.maxSize := maxSize;
      packets := map[];
      order := [];
    }

    lemma LookupInMap(seqno: nat)
      requires Consistent()
      ensures Lookup(Entries(), seqno) == if seqno in packets then Some(packets[seqno]) else None
    {
      LookupIs(Entries(), seqno);
      if seqno in packets {
        var i :| 0 <= i < |order| && order[i] == seqno;
        assert Entries()[i] == (seqno, packets[seqno]);
      } else {
        assert forall i | 0 <= i < |order| :: Entries()[i].0 == order[i];
      }
    }

    method Has(seqno: nat) returns (r: bool)
      requires Consistent()
      ensures r == Lookup(Entries(), seqno).Some?
    {
      LookupInMap(seqno);
      r := seqno in packets;
    }

    method Get(seqno: nat) returns (r: Option<Bytes>)
      requires Consistent()
      ensures r == Lookup(Entries(), seqno)
    {
      LookupInMap(seqno);
      r := if seqno in packets then Some(packets[seqno]) else None;
    }

    /** A key that is there keeps its packet; a new one pushes the oldest out. */
    method Set(seqno: nat, packet: Bytes)
      requires Valid()
      modifies this
      ensures Valid()
      ensures Lookup(old(Entries()), seqno).Some? ==> Entries() == old(Entries())
      ensures Lookup(old(Entries()), seqno).None? ==> Entries() == Last(old(Entries()) + [(seqno, packet)], maxSize)
    {
      hide Consistent, Entries, Lookup;
      var has := Has(seqno);
      if has {
        return;
      }
      Insert(seqno, packet);
      while |order| > maxSize
        invariant Consistent()
        invariant Last(Entries(), maxSize) == Last(old(Entries()) + [(seqno, packet)], maxSize)
      {
        LastOfTail(Entries(), maxSize);
        EvictOldest();
      }
    }

    method Insert(seqno: nat, packet: Bytes)
      requires Consistent() && Lookup(Entries(), seqno).None?
      modifies this
      ensures Consistent() && Entries() == old(Entries()) + [(seqno, packet)]
    {
      LookupInMap(seqno);
      packets := packets[seqno := packet];
      order := order + [seqno];
    }

    method EvictOldest()
      requires Consistent() && order != []
      modifies this
      ensures Consistent() && |order| + 1 == |old(order)| && Entries() == old(Entries())[1..]
    {
      var oldest := order[0];
      order := order[1..];
      packets := packets - {oldest};
      assert forall i | 0 <= i < |order| :: order[i] == old(order)[i + 1];
    }

    method Clear()
      requires Valid()
      modifies this
      ensures Valid() && Entries() == []
    {
      packets := map[];
      order := [];
    }
  }
}
