/** The circular doubly linked list of live snapshots, oldest first. Snapshot
    objects are named by ids; HEAD is the dummy head node. */
module Snapshots {

  type Id = nat
  const HEAD: Id := 0

  datatype Links = Links(next: map<Id, Id>, prev: map<Id, Id>)

  /** `ring` is one trip around the list: the head, the snapshots, the head again. */
  ghost predicate IsRing(l: Links, ring: seq<Id>) {
    var n := |ring| - 1;
    && 1 <= n && ring[0] == HEAD == ring[n]
    && (forall i, j | 0 <= i < j < n :: ring[i] != ring[j])
    && (forall i | 0 <= i < n :: ring[i] in l.next && l.next[ring[i]] == ring[i + 1])
    && (forall i | 0 < i <= n :: ring[i] in l.prev && l.prev[ring[i]] == ring[i - 1])
  }

  ghost predicate OnRing(ring: seq<Id>, id: Id) {
    exists i :: 0 < i < |ring| - 1 && ring[i] == id
  }

  /** Exactly the snapshots on the ring have a number, and no number goes down. */
  ghost predicate Numbered(number: map<Id, nat>, ring: seq<Id>) {
    && (forall id {:trigger OnRing(ring, id)} :: id in number ==> OnRing(ring, id))
    && (forall i | 0 < i < |ring| - 1 :: ring[i] in number)
    && (forall i, j | 0 < i < j < |ring| - 1 :: number[ring[i]] <= number[ring[j]])
  }

  lemma NumbersAppend(number: map<Id, nat>, ring: seq<Id>, x: Id, s: nat)
    requires 2 <= |ring| && Numbered(number, ring) && x !in number
    requires forall id <- number :: number[id] <= s
    ensures Numbered(number[x := s], ring[..|ring| - 1] + [x, HEAD])
  {
    var n := |ring| - 1;
    var ring' := ring[..n] + [x, HEAD];
    assert forall i | 0 < i < n :: ring'[i] == ring[i] && ring[i] != x;
    assert ring'[n] == x;
    forall id | id in number
      ensures OnRing(ring', id)
    {
      assert OnRing(ring, id);
      var i :| 0 < i < |ring| - 1 && ring[i] == id;
      assert ring'[i] == id;
    }
  }

  lemma NumbersRemove(number: map<Id, nat>, ring: seq<Id>, k: nat)
    requires Numbered(number, ring) && 0 < k < |ring| - 1
    requires forall i, j | 0 <= i < j < |ring| - 1 :: ring[i] != ring[j]
    ensures Numbered(number - {ring[k]}, ring[..k] + ring[k + 1..])
  {
    var ring' := ring[..k] + ring[k + 1..];
    assert forall i | 0 <= i < |ring'| :: ring'[i] == if i < k then ring[i] else ring[i + 1];
    forall id | id in number && id != ring[k]
      ensures OnRing(ring', id)
    {
      assert OnRing(ring, id);
      var i :| 0 < i < |ring| - 1 && ring[i] == id;
      assert ring'[if i < k then i else i - 1] == id;
    }
  }

  /** Splicing a node in before the head. */
  lemma RingAppend(l: Links, ring: seq<Id>, x: Id)
    requires IsRing(l, ring) && x !in ring
    ensures var n, last := |ring| - 1, l.prev[HEAD];
            IsRing(Links(l.next[x := HEAD][last := x], l.prev[x := last][HEAD := x]), ring[..n] + [x, HEAD])
  {
    var n := |ring| - 1;
    assert l.prev[ring[n]] == ring[n - 1];
    var ring' := ring[..n] + [x, HEAD];
    var l' := Links(l.next[x := HEAD][l.prev[HEAD] := x], l.prev[x := l.prev[HEAD]][HEAD := x]);
    assert forall i | 0 <= i < n :: ring'[i] == ring[i];
    assert forall i | 0 <= i < n - 1 :: l'.next[ring[i]] == ring[i + 1];
  }

  /** Splicing the k-th node out. */
  lemma RingRemove(l: Links, ring: seq<Id>, k: nat)
    requires IsRing(l, ring) && 0 < k < |ring| - 1
    ensures var before, after := l.prev[ring[k]], l.next[ring[k]];
            before in l.next && after in l.prev &&
            IsRing(Links(l.next[before := after], l.prev[after := before]), ring[..k] + ring[k + 1..])
  {
    var before, after := l.prev[ring[k]], l.next[ring[k]];
    assert before == ring[k - 1] && after == ring[k + 1];
    var ring' := ring[..k] + ring[k + 1..];
    assert forall i | 0 <= i < |ring'| :: ring'[i] == if i < k then ring[i] else ring[i + 1];
    forall i | 0 <= i < |ring'| - 1
      ensures ring'[i] in l.next && l.next[before := after][ring'[i]] == ring'[i + 1]
    {
      var j := if i < k then i else i + 1;
      assert ring'[i] == ring[j] && l.next[ring[j]] == ring[j + 1];
    }
    forall i | 0 < i < |ring'|
      ensures ring'[i] in l.prev && l.prev[after := before][ring'[i]] == ring'[i - 1]
    {
      var j := if i < k then i else i + 1;
      assert ring'[i] == ring[j] && l.prev[ring[j]] == ring[j - 1];
    }
  }

  class SnapshotList {
    var links: Links
    var number: map<Id, nat>  // sequence_number_ of every live snapshot
    ghost var ring: seq<Id>

    ghost predicate Valid()
      reads this
    {
      && IsRing(links, ring)
      && Numbered(number, ring)
    }

    constructor ()
      ensures Valid() && number == map[]
    {
      links := Links(map[HEAD := HEAD], map[HEAD := HEAD]);
      number := map[];
      ring := [HEAD, HEAD];
    }

    predicate Empty()
      requires Valid()
      reads this
      ensures Empty() <==> number == map[]
    {
      assert links.next[ring[0]] == ring[1];
      assert forall id | id in number :: OnRing(ring, id);
      assert 2 < |ring| ==> ring[1] in number;
      links.next[HEAD] == HEAD
    }

    /** No live snapshot is older. */
    function Oldest(): (id: Id)
      requires Valid() && number != map[]
      reads this
      ensures id in number && forall other | other in number :: number[id] <= number[other]
    {
      assert links.next[ring[0]] == ring[1];
      assert forall other | other in number :: OnRing(ring, other);
      links.next[HEAD]
    }

    /** No live snapshot is newer. */
    function Newest(): (id: Id)
      requires Valid() && number != map[]
      reads this
      ensures id in number && forall other | other in number :: number[other] <= number[id]
    {
      assert links.prev[ring[|ring| - 1]] == ring[|ring| - 2];
      assert forall other | other in number :: OnRing(ring, other);
      links.prev[HEAD]
    }

    /** `snapshot` names the newly allocated SnapshotImpl. */
    method New(sequenceNumber: nat, snapshot: Id)
      requires Valid()
      requires snapshot != HEAD && snapshot !in number
      requires Empty() || number[Newest()] <= sequenceNumber
      modifies this
      ensures Valid()
      ensures number == old(number)[snapshot := sequenceNumber]
      ensures ring == old(ring[..|ring| - 1]) + [snapshot, HEAD]
    {
      ghost var n := |ring| - 1;
      var last := links.prev[HEAD];
      RingAppend(links, ring, snapshot);
      NumbersAppend(number, ring, snapshot, sequenceNumber);
      links := Links(links.next[snapshot := HEAD][last := snapshot],
                     links.prev[snapshot := last][HEAD := snapshot]);
      number := number[snapshot := sequenceNumber];
      ring := ring[..n] + [snapshot, HEAD];
    }

    method Delete(snapshot: Id)
      requires Valid()
      requires snapshot in number
      modifies this
      ensures Valid()
      ensures number == old(number) - {snapshot}
      ensures exists k :: 0 < k < |old(ring)| - 1 && ring == old(ring[..k] + ring[k + 1..])
    {
      assert OnRing(ring, snapshot);
      ghost var k :| 0 < k < |ring| - 1 && ring[k] == snapshot;
      var before, after := links.prev[snapshot], links.next[snapshot];
      RingRemove(links, ring, k);
      NumbersRemove(number, ring, k);
      links := Links(links.next[before := after], links.prev[after := before]);
      number := number - {snapshot};
      ring := ring[..k] + ring[k + 1..];
    }
  }
}
